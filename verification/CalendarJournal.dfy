/**
 The append-only journal of calendar versions: its validator, its notice writer and the
 point-in-time read.

 Hashing, the host rules for sources, the text-emptiness test and the local-date function
 are parameters; where a theorem needs it, no two of the texts at hand share a digest.  Instants
 count microseconds.
 */
module CalendarJournal {
  import opened Prelude
  import opened Calendar
  import Sorting

  const CLOCK_ALLOWANCE := 5_000_000
  const BASELINE_REASON := "published annual baseline"

  datatype NoticeKind = Baseline | Closing | Marking | OtherKind(name: string)

  datatype Notice = Notice(
    kind: NoticeKind, dates: seq<int>, reason: string, source: string, url: string, publishedOn: int, review: string)

  datatype Material = Material(
    kind: NoticeKind, dates: seq<int>, reason: string, sourceSha: string, url: string, publishedOn: int, review: string)

  /** One stored version record. */
  datatype Stored = Stored(observedAt: int, parent: Option<string>, material: Material, days: Days)

  /** `None` stands for bytes that are not a canonical record. */
  datatype Row = Row(sequence: int, sha: string, raw: Option<Stored>)

  datatype Tables = Tables(sources: map<string, string>, rows: seq<Row>)

  datatype Rules = Rules(
    versionSha: Stored -> string,
    sourceSha: string -> string,
    sourceOk: (string, string, string) -> bool,
    blank: string -> bool,
    localDay: int -> int,
    baseline: Days,
    baselineSha: string,
    baselineUrl: string,
    baselinePublished: int)

  /** No two different versions of the table share a digest. */
  predicate CollisionFree(r: Rules, rows: seq<Row>) {
    forall i, j :: 0 <= i < |rows| && 0 <= j < |rows| ==> NoCollision(r, rows[i], rows[j])
  }

  predicate NoCollision(r: Rules, x: Row, y: Row) {
    x.raw.Some? && y.raw.Some? && r.versionSha(x.raw.value) == r.versionSha(y.raw.value) ==> x.raw == y.raw
  }

  /** The digest of a notice's source bytes is new to the table or stands for the same bytes. */
  predicate SourceDistinct(r: Rules, t: Tables, n: Notice) {
    r.sourceSha(n.source) in t.sources ==> t.sources[r.sourceSha(n.source)] == n.source
  }

  function MarkOf(kind: NoticeKind): Fact {
    if kind == Marking then Unknown else Closed
  }

  // ---- notices -------------------------------------------------------------------------

  predicate Distinct(dates: seq<int>) {
    forall i, j :: 0 <= i < j < |dates| ==> dates[i] != dates[j]
  }

  predicate NoticeOk(r: Rules, n: Notice) {
    && (n.kind == Closing || n.kind == Marking)
    && n.dates != []
    && Distinct(n.dates)
    && (forall d :: d in n.dates ==> START <= d <= END)
    && r.sourceOk(n.source, n.url, n.review)
    && !r.blank(n.reason)
  }

  function MaterialOf(r: Rules, n: Notice): Material {
    Material(
      n.kind, Sorting.Sort(Sorting.Earlier(), n.dates), n.reason, r.sourceSha(n.source), n.url, n.publishedOn, n.review)
  }

  /** The notice a stored material claims to come from, given its source bytes. */
  function NoticeOf(m: Material, source: string): Notice {
    Notice(m.kind, m.dates, m.reason, source, m.url, m.publishedOn, m.review)
  }

  lemma {:induction false} MaterialRoundTrip(r: Rules, n: Notice)
    requires NoticeOk(r, n)
    ensures var m := MaterialOf(r, n);
      NoticeOk(r, NoticeOf(m, n.source)) && MaterialOf(r, NoticeOf(m, n.source)) == m
  {
    var sorted := Sorting.Sort(Sorting.Earlier(), n.dates);
    Sorting.SortSorts(Sorting.Earlier(), n.dates);
    Sorting.SortKeepsSorted(Sorting.Earlier(), sorted);
    Sorting.SortMembers(Sorting.Earlier(), n.dates);
    Sorting.SortContents(Sorting.Earlier(), n.dates);
    DistinctSurvivesReordering(n.dates, sorted);
  }

  lemma {:induction false} DistinctCounts(dates: seq<int>)
    ensures Distinct(dates) <==> forall d :: multiset(dates)[d] <= 1
  {
    if dates != [] {
      var rest, last := Init(dates), Last(dates);
      DistinctCounts(rest);
      assert dates == rest + [last];
      assert last in rest <==> multiset(rest)[last] >= 1;
      if Distinct(dates) {
        assert Distinct(rest);
        assert last !in rest;
      }
      if forall d :: multiset(dates)[d] <= 1 {
        forall d ensures multiset(rest)[d] <= 1 {
          assert multiset(dates)[d] <= 1;
        }
        assert multiset(dates)[last] <= 1;
        assert last !in rest;
      }
    }
  }

  lemma {:induction false} DistinctSurvivesReordering(a: seq<int>, b: seq<int>)
    requires Distinct(a) && multiset(a) == multiset(b)
    ensures Distinct(b)
  {
    DistinctCounts(a);
    DistinctCounts(b);
  }

  // ---- replay ---------------------------------------------------------------------------

  /** The days after the baseline and every notice in the rows have been applied in order. */
  function Replay(r: Rules, rows: seq<Row>): Days {
    if |rows| <= 1 || Last(rows).raw == None then r.baseline
    else Changed(Replay(r, Init(rows)), MarkOf(Last(rows).raw.value.material.kind), Last(rows).raw.value.material.dates)
  }

  predicate IsBaseline(r: Rules, f: Stored) {
    && f.parent == None
    && f.material.kind == Baseline
    && f.material.sourceSha == r.baselineSha
    && f.material.url == r.baselineUrl
    && f.material.publishedOn == r.baselinePublished
    && f.material.dates == []
    && f.material.reason == BASELINE_REASON
  }

  predicate Fits(r: Rules, sources: map<string, string>, prior: seq<Row>, row: Row) {
    && row.raw.Some?
    && var f := row.raw.value;
    && row.sequence == |prior| + 1
    && r.versionSha(f) == row.sha
    && f.material.sourceSha in sources
    && r.sourceOk(sources[f.material.sourceSha], f.material.url, f.material.review)
    && f.material.publishedOn <= r.localDay(f.observedAt)
    && f.days == Replay(r, prior + [row])
    && if prior == [] then IsBaseline(r, f)
       else
         && Last(prior).raw.Some?
         && f.parent == Some(Last(prior).sha)
         && Last(prior).raw.value.observedAt < f.observedAt
         && var n := NoticeOf(f.material, sources[f.material.sourceSha]);
         && NoticeOk(r, n)
         && MaterialOf(r, n) == f.material
         && f.days != Replay(r, prior)
  }

  predicate Chained(r: Rules, sources: map<string, string>, rows: seq<Row>) {
    forall i :: 0 <= i < |rows| ==> FitsAt(r, sources, rows, i)
  }

  predicate FitsAt(r: Rules, sources: map<string, string>, rows: seq<Row>, i: nat)
    requires i < |rows|
  {
    Fits(r, sources, rows[..i], rows[i])
  }

  /** Digests of the source bytes the rows refer to. */
  function Used(rows: seq<Row>): set<string> {
    set row | row in rows && row.raw.Some? :: row.raw.value.material.sourceSha
  }

  predicate Accepted(r: Rules, t: Tables) {
    && t.rows != []
    && (forall sha :: sha in t.sources ==> r.sourceSha(t.sources[sha]) == sha)
    && Chained(r, t.sources, t.rows)
    && Used(t.rows) == t.sources.Keys
  }

  lemma {:induction false} ChainedNext(r: Rules, sources: map<string, string>, prior: seq<Row>, row: Row)
    ensures Chained(r, sources, prior + [row]) <==> Chained(r, sources, prior) && Fits(r, sources, prior, row)
  {
    var next := prior + [row];
    assert next[..|prior|] == prior && next[|prior|] == row;
    assert FitsAt(r, sources, next, |prior|) == Fits(r, sources, prior, row);
    forall i | 0 <= i < |prior| ensures FitsAt(r, sources, next, i) == FitsAt(r, sources, prior, i) {
      assert next[..i] == prior[..i] && next[i] == prior[i];
    }
  }

  function VersionAt(r: Rules, rows: seq<Row>, i: nat): Version
    requires i < |rows| && rows[i].raw.Some?
  {
    Version(
      rows[i].sha, rows[i].raw.value.parent, rows[i].raw.value.observedAt, Replay(r, rows[..i + 1]), Shas(rows[..i]))
  }

  function Shas(rows: seq<Row>): seq<string> {
    if rows == [] then [] else Shas(Init(rows)) + [Last(rows).sha]
  }

  ghost predicate Describes(r: Rules, rows: seq<Row>, versions: seq<Version>) {
    && |versions| == |rows|
    && forall i :: 0 <= i < |rows| ==> rows[i].raw.Some? && versions[i] == VersionAt(r, rows, i)
  }

  /** Validates every record against the facts it carries forward, and returns the versions. */
  method Load(r: Rules, t: Tables) returns (result: Result<seq<Version>>)
    ensures result.Ok? <==> Accepted(r, t)
    ensures result.Ok? ==> Describes(r, t.rows, result.value)
  {
    if exists sha :: sha in t.sources && r.sourceSha(t.sources[sha]) != sha {
      return Rejected("source digest mismatch");
    }
    var versions: seq<Version> := [];
    var used: set<string> := {};
    var i := 0;
    while i < |t.rows|
      invariant 0 <= i <= |t.rows|
      invariant Loaded(r, t.sources, t.rows[..i], versions, used)
    {
      var row := t.rows[i];
      CheckRowIsFits(r, t.sources, t.rows[..i], versions, row);
      var days := CheckRow(r, t.sources, versions, row);
      if days.Rejected? {
        assert !FitsAt(r, t.sources, t.rows, i);
        return Rejected(days.reason);
      }
      var f := row.raw.value;
      LoadedNext(r, t.sources, t.rows, i, versions, used, days.value);
      versions := versions + [Version(row.sha, f.parent, f.observedAt, days.value, Digests(versions))];
      used := used + {f.material.sourceSha};
      i := i + 1;
    }
    assert t.rows[..|t.rows|] == t.rows;
    if versions == [] || used != t.sources.Keys {
      return Rejected("empty journal or unbound sources");
    }
    return Ok(versions);
  }

  /** The validator's working state after reading some rows. */
  ghost predicate Loaded(
    r: Rules, sources: map<string, string>, rows: seq<Row>, versions: seq<Version>, used: set<string>)
  {
    Chained(r, sources, rows) && Describes(r, rows, versions) && used == Used(rows)
  }

  lemma {:induction false} LoadedNext(
    r: Rules, sources: map<string, string>, rows: seq<Row>, i: nat, versions: seq<Version>, used: set<string>,
    days: Days)
    requires i < |rows| && Loaded(r, sources, rows[..i], versions, used)
    requires CheckRow(r, sources, versions, rows[i]) == Ok(days)
    ensures rows[i].raw.Some?
    ensures var f := rows[i].raw.value;
      Loaded(r, sources, rows[..i + 1],
        versions + [Version(rows[i].sha, f.parent, f.observedAt, days, Digests(versions))],
        used + {f.material.sourceSha})
  {
    var prior, row := rows[..i], rows[i];
    assert rows[..i + 1] == prior + [row];
    CheckRowIsFits(r, sources, prior, versions, row);
    ChainedNext(r, sources, prior, row);
    DescribesNext(r, prior, versions, row);
    UsedNext(prior, row);
  }

  function Digests(versions: seq<Version>): seq<string> {
    if versions == [] then [] else Digests(Init(versions)) + [Last(versions).digest]
  }

  /** The validator's test of one row; its value is the row's day facts. */
  function CheckRow(r: Rules, sources: map<string, string>, versions: seq<Version>, row: Row): Result<Days> {
    if row.sequence != |versions| + 1 || row.raw == None || r.versionSha(row.raw.value) != row.sha then
      Rejected("version sequence/digest mismatch")
    else
      var f := row.raw.value;
      var m := f.material;
      if m.sourceSha !in sources || !r.sourceOk(sources[m.sourceSha], m.url, m.review) then
        Rejected("missing source bytes")
      else if m.publishedOn > r.localDay(f.observedAt) then Rejected("source publication follows observation")
      else if versions == [] then
        if !IsBaseline(r, f) then Rejected("invalid baseline")
        else if f.days != r.baseline then Rejected("calendar facts mismatch")
        else Ok(r.baseline)
      else
        var prior := Last(versions);
        var n := NoticeOf(m, sources[m.sourceSha]);
        if f.parent != Some(prior.digest) || f.observedAt <= prior.observedAt then
          Rejected("calendar parent/clock mismatch")
        else if !NoticeOk(r, n) || MaterialOf(r, n) != m then Rejected("notice material mismatch")
        else
          var days := Changed(prior.days, MarkOf(m.kind), m.dates);
          if days == prior.days then Rejected("notice changes nothing")
          else if f.days != days then Rejected("calendar facts mismatch")
          else Ok(days)
  }

  lemma {:induction false} PriorVersion(r: Rules, sources: map<string, string>, prior: seq<Row>, versions: seq<Version>)
    requires prior != [] && Chained(r, sources, prior) && Describes(r, prior, versions)
    ensures Last(versions).days == Replay(r, prior)
    ensures Last(versions).digest == Last(prior).sha
    ensures Last(versions).observedAt == Last(prior).raw.value.observedAt
    ensures Last(versions) == VersionAt(r, prior, |prior| - 1)
  {
    assert prior[..|prior|] == prior;
  }

  lemma {:induction false} CheckRowIsFits(
    r: Rules, sources: map<string, string>, prior: seq<Row>, versions: seq<Version>, row: Row)
    requires Chained(r, sources, prior) && Describes(r, prior, versions)
    ensures CheckRow(r, sources, versions, row).Ok? <==> Fits(r, sources, prior, row)
    ensures CheckRow(r, sources, versions, row).Ok? ==>
      CheckRow(r, sources, versions, row).value == Replay(r, prior + [row])
  {
    assert Init(prior + [row]) == prior;
    if prior != [] {
      PriorVersion(r, sources, prior, versions);
    }
  }

  lemma {:induction false} DescribesNext(r: Rules, prior: seq<Row>, versions: seq<Version>, row: Row)
    requires Describes(r, prior, versions) && row.raw.Some?
    ensures Describes(r, prior + [row],
      versions + [Version(
        row.sha, row.raw.value.parent, row.raw.value.observedAt, Replay(r, prior + [row]), Digests(versions))])
  {
    var next, version := prior + [row], VersionAt(r, prior + [row], |prior|);
    DigestsAreShas(r, prior, versions);
    assert next[..|prior|] == prior && next[..|prior| + 1] == next;
    forall i | 0 <= i <= |prior| ensures next[i].raw.Some? && (versions + [version])[i] == VersionAt(r, next, i) {
      if i < |prior| {
        VersionAtKept(r, prior, next, i);
        assert versions[i] == VersionAt(r, prior, i);
      }
    }
  }

  lemma {:induction false} VersionAtKept(r: Rules, prior: seq<Row>, next: seq<Row>, i: nat)
    requires i < |prior| && prior <= next && prior[i].raw.Some?
    ensures VersionAt(r, next, i) == VersionAt(r, prior, i)
  {
    assert next[..i] == prior[..i] && next[..i + 1] == prior[..i + 1];
  }

  lemma {:induction false} DescribesInit(r: Rules, rows: seq<Row>, versions: seq<Version>)
    requires rows != [] && Describes(r, rows, versions)
    ensures Describes(r, Init(rows), Init(versions))
  {
    forall i | 0 <= i < |Init(rows)|
      ensures Init(rows)[i].raw.Some? && Init(versions)[i] == VersionAt(r, Init(rows), i)
    {
      assert rows[i].raw.Some? && versions[i] == VersionAt(r, rows, i);
      VersionAtKept(r, Init(rows), rows, i);
    }
  }

  lemma {:induction false} DigestsAreShas(r: Rules, rows: seq<Row>, versions: seq<Version>)
    requires Describes(r, rows, versions)
    ensures Digests(versions) == Shas(rows)
  {
    if rows != [] {
      DescribesInit(r, rows, versions);
      DigestsAreShas(r, Init(rows), Init(versions));
    }
  }

  lemma {:induction false} UsedNext(prior: seq<Row>, row: Row)
    ensures Used(prior + [row]) == Used(prior) + (if row.raw.Some? then {row.raw.value.material.sourceSha} else {})
  {
    forall x ensures x in prior + [row] <==> x in prior || x == row {
    }
  }

  // ---- the notice writer ------------------------------------------------------------------

  function NewFact(r: Rules, rows: seq<Row>, n: Notice, observedAt: int): Stored
    requires rows != []
  {
    var m := MaterialOf(r, n);
    Stored(observedAt, Some(Last(rows).sha), m, Changed(Replay(r, rows), MarkOf(m.kind), m.dates))
  }

  /** The tables with the notice's source and version added; known source bytes are kept. */
  function Extended(r: Rules, t: Tables, n: Notice, observedAt: int): Tables
    requires t.rows != []
  {
    var f := NewFact(r, t.rows, n, observedAt);
    var sha := r.sourceSha(n.source);
    Tables(
      if sha in t.sources then t.sources else t.sources[sha := n.source],
      t.rows + [Row(|t.rows| + 1, r.versionSha(f), Some(f))])
  }

  /** A repeat of the notice that produced the current head, naming the same parent. */
  predicate IsRetry(r: Rules, rows: seq<Row>, n: Notice, parent: string)
    requires rows != []
  {
    && Last(rows).raw.Some?
    && Last(rows).raw.value.material == MaterialOf(r, n)
    && Last(rows).raw.value.parent == Some(parent)
  }

  /** Exactly the conditions under which a notice becomes a new version. */
  predicate Publishable(r: Rules, t: Tables, n: Notice, parent: string, observedAt: int)
    requires t.rows != []
  {
    && Last(t.rows).sha == parent
    && Last(t.rows).raw.Some?
    && Last(t.rows).raw.value.observedAt < observedAt
    && n.publishedOn <= r.localDay(observedAt)
    && Changed(Replay(r, t.rows), MarkOf(n.kind), n.dates) != Replay(r, t.rows)
  }

  /** The tables after one writer call. */
  function NoticeStep(r: Rules, t: Tables, n: Notice, parent: string, observedAt: int, now: int): Result<Tables> {
    if observedAt > now + CLOCK_ALLOWANCE || !NoticeOk(r, n) || !Accepted(r, t) then
      Rejected("unusable notice or journal")
    else if IsRetry(r, t.rows, n, parent) then Ok(t)
    else if Publishable(r, t, n, parent, observedAt) then Ok(Extended(r, t, n, observedAt))
    else Rejected("parent, clock, publication date or effect refused")
  }

  lemma {:induction false} ChangedIgnoresOrder(days: Days, mark: Fact, a: seq<int>, b: seq<int>)
    requires forall d :: d in a <==> d in b
    ensures Changed(days, mark, a) == Changed(days, mark, b)
  {
    var x, y := Changed(days, mark, a), Changed(days, mark, b);
    assert forall d :: d in x ==> x[d] == y[d];
  }

  lemma {:induction false} MoreSourcesKeepChain(
    r: Rules, a: map<string, string>, b: map<string, string>, rows: seq<Row>)
    requires Chained(r, a, rows) && forall sha :: sha in a ==> sha in b && b[sha] == a[sha]
    ensures Chained(r, b, rows)
  {
    forall i | 0 <= i < |rows| ensures FitsAt(r, b, rows, i) {
      assert FitsAt(r, a, rows, i);
    }
  }

  /** Re-validation after the insert succeeds exactly when the publication date is not in the future. */
  lemma {:induction false} ExtendedAcceptedExactly(r: Rules, t: Tables, n: Notice, observedAt: int)
    requires SourceDistinct(r, t, n) && Accepted(r, t) && NoticeOk(r, n)
    requires Last(t.rows).raw.Some? && Last(t.rows).raw.value.observedAt < observedAt
    requires Changed(Replay(r, t.rows), MarkOf(n.kind), n.dates) != Replay(r, t.rows)
    ensures Accepted(r, Extended(r, t, n, observedAt)) <==> n.publishedOn <= r.localDay(observedAt)
  {
    var next := Extended(r, t, n, observedAt);
    ExtendedSources(r, t, n, observedAt);
    NewRowFits(r, t, n, observedAt);
    ChainedNext(r, next.sources, t.rows, Last(next.rows));
    assert next.rows == t.rows + [Last(next.rows)];
  }

  lemma {:induction false} ExtendedSources(r: Rules, t: Tables, n: Notice, observedAt: int)
    requires Accepted(r, t)
    ensures var next := Extended(r, t, n, observedAt);
      && (forall sha :: sha in next.sources ==> r.sourceSha(next.sources[sha]) == sha)
      && Used(next.rows) == next.sources.Keys
      && Chained(r, next.sources, t.rows)
  {
    var next := Extended(r, t, n, observedAt);
    UsedNext(t.rows, Last(next.rows));
    MoreSourcesKeepChain(r, t.sources, next.sources, t.rows);
  }

  lemma {:induction false} NewRowFits(r: Rules, t: Tables, n: Notice, observedAt: int)
    requires SourceDistinct(r, t, n) && Accepted(r, t) && NoticeOk(r, n)
    requires Last(t.rows).raw.Some? && Last(t.rows).raw.value.observedAt < observedAt
    requires Changed(Replay(r, t.rows), MarkOf(n.kind), n.dates) != Replay(r, t.rows)
    ensures var next := Extended(r, t, n, observedAt);
      Fits(r, next.sources, t.rows, Last(next.rows)) <==> n.publishedOn <= r.localDay(observedAt)
  {
    var next := Extended(r, t, n, observedAt);
    MaterialRoundTrip(r, n);
    SortedDatesChangeTheSame(r, Replay(r, t.rows), n);
    assert Init(next.rows) == t.rows && next.rows == t.rows + [Last(next.rows)];
    assert next.sources[r.sourceSha(n.source)] == n.source;
  }

  lemma {:induction false} SortedDatesChangeTheSame(r: Rules, days: Days, n: Notice)
    ensures Changed(days, MarkOf(n.kind), MaterialOf(r, n).dates) == Changed(days, MarkOf(n.kind), n.dates)
  {
    Sorting.SortMembers(Sorting.Earlier(), n.dates);
    ChangedIgnoresOrder(days, MarkOf(n.kind), n.dates, MaterialOf(r, n).dates);
  }

  /** The writer's decision in the terms of the newest loaded version. */
  lemma {:induction false} StepByHead(
    r: Rules, t: Tables, versions: seq<Version>, n: Notice, parent: string, observedAt: int, now: int)
    requires SourceDistinct(r, t, n) && Accepted(r, t) && Describes(r, t.rows, versions)
    requires observedAt <= now + CLOCK_ALLOWANCE && NoticeOk(r, n)
    ensures versions != [] && Last(t.rows).raw.Some?
    ensures var step, prior, m := NoticeStep(r, t, n, parent, observedAt, now), Last(versions), MaterialOf(r, n);
      var retry := Last(t.rows).raw.value.material == m && prior.parent == Some(parent);
      var effective := Changed(prior.days, MarkOf(n.kind), m.dates) != prior.days;
      && prior == VersionAt(r, t.rows, |t.rows| - 1)
      && (retry ==> step == Ok(t))
      && (!retry && (prior.digest != parent || observedAt <= prior.observedAt || !effective) ==> step.Rejected?)
      && (!retry && prior.digest == parent && observedAt > prior.observedAt && effective ==>
            if Accepted(r, Extended(r, t, n, observedAt)) then step == Ok(Extended(r, t, n, observedAt))
            else step.Rejected?)
  {
    HeadReadable(r, t);
    PriorVersion(r, t.sources, t.rows, versions);
    SortedDatesChangeTheSame(r, Replay(r, t.rows), n);
    if Last(versions).observedAt < observedAt
      && Changed(Replay(r, t.rows), MarkOf(n.kind), n.dates) != Replay(r, t.rows)
    {
      ExtendedAcceptedExactly(r, t, n, observedAt);
    }
  }

  class Store {
    const rules: Rules
    var tables: Tables

    constructor (r: Rules, t: Tables)
      ensures rules == r && tables == t
    {
      rules := r;
      tables := t;
    }

    /** Publishes a notice, answers an exact retry with the current head, or changes nothing. */
    method AppendNotice(n: Notice, parent: string, observedAt: int, now: int) returns (result: Result<Version>)
      requires SourceDistinct(rules, tables, n)
      modifies this`tables
      ensures var step := NoticeStep(rules, old(tables), n, parent, observedAt, now);
        && (result.Ok? <==> step.Ok?)
        && tables == (if step.Ok? then step.value else old(tables))
      ensures result.Ok? ==>
        && tables.rows != []
        && Last(tables.rows).raw.Some?
        && result.value == VersionAt(rules, tables.rows, |tables.rows| - 1)
    {
      if observedAt > now + CLOCK_ALLOWANCE {
        return Rejected("observation exceeds current clock allowance");
      }
      if !NoticeOk(rules, n) {
        return Rejected("invalid notice");
      }
      var loaded := Load(rules, tables);
      if loaded.Rejected? {
        return Rejected(loaded.reason);
      }
      StepByHead(rules, tables, loaded.value, n, parent, observedAt, now);
      var material, prior := MaterialOf(rules, n), Last(loaded.value);
      if Last(tables.rows).raw.value.material == material && prior.parent == Some(parent) {
        return Ok(prior);
      }
      if prior.digest != parent {
        return Rejected("expected parent changed");
      }
      if observedAt <= prior.observedAt {
        return Rejected("observation clock must increase");
      }
      if Changed(prior.days, MarkOf(n.kind), material.dates) == prior.days {
        return Rejected("notice changes nothing");
      }
      var before := tables;
      tables := Extended(rules, tables, n, observedAt);
      loaded := Load(rules, tables);
      if loaded.Rejected? {
        tables := before;
        return Rejected(loaded.reason);
      }
      PriorVersion(rules, tables.sources, tables.rows, loaded.value);
      return Ok(Last(loaded.value));
    }
  }

  lemma {:induction false} HeadReadable(r: Rules, t: Tables)
    ensures Accepted(r, t) ==> Last(t.rows).raw.Some?
  {
    if Accepted(r, t) {
      assert FitsAt(r, t.sources, t.rows, |t.rows| - 1);
    }
  }

  // ---- what every accepted journal guarantees ------------------------------------------------

  lemma {:induction false} FitsHolds(r: Rules, t: Tables, i: nat)
    requires Accepted(r, t) && i < |t.rows|
    ensures Fits(r, t.sources, t.rows[..i], t.rows[i])
    ensures t.rows[i].raw.Some?
  {
    assert FitsAt(r, t.sources, t.rows, i);
  }

  lemma {:induction false} RowLinks(r: Rules, t: Tables, i: nat)
    requires Accepted(r, t) && i < |t.rows|
    ensures t.rows[i].raw.Some?
    ensures r.versionSha(t.rows[i].raw.value) == t.rows[i].sha
    ensures t.rows[i].raw.value.parent == (if i == 0 then None else Some(t.rows[i - 1].sha))
    ensures i > 0 ==> t.rows[i - 1].raw.Some? && t.rows[i - 1].raw.value.observedAt < t.rows[i].raw.value.observedAt
  {
    FitsHolds(r, t, i);
    if i > 0 {
      assert Last(t.rows[..i]) == t.rows[i - 1];
    }
  }

  /** A writer call on an accepted journal leaves an accepted journal, same or one version longer. */
  lemma {:induction false} StepKeepsAccepted(r: Rules, t: Tables, n: Notice, parent: string, observedAt: int, now: int)
    requires SourceDistinct(r, t, n)
    requires NoticeStep(r, t, n, parent, observedAt, now).Ok?
    ensures var t' := NoticeStep(r, t, n, parent, observedAt, now).value;
      && Accepted(r, t')
      && t.rows <= t'.rows
      && |t.rows| <= |t'.rows| <= |t.rows| + 1
  {
    if Publishable(r, t, n, parent, observedAt) {
      ExtendedAcceptedExactly(r, t, n, observedAt);
    }
  }

  /** The day facts a record stores are the baseline with every earlier and own notice applied. */
  lemma {:induction false} StoredDaysAreReplay(r: Rules, t: Tables, i: nat)
    requires Accepted(r, t) && i < |t.rows|
    ensures t.rows[i].raw.Some? && t.rows[i].raw.value.days == Replay(r, t.rows[..i + 1])
  {
    FitsHolds(r, t, i);
    assert t.rows[..i + 1] == t.rows[..i] + [t.rows[i]];
  }

  lemma {:induction false} ReplayNext(r: Rules, rows: seq<Row>, j: nat)
    requires 0 < j < |rows| && rows[j].raw.Some?
    ensures Replay(r, rows[..j + 1]) ==
      Changed(Replay(r, rows[..j]), MarkOf(rows[j].raw.value.material.kind), rows[j].raw.value.material.dates)
  {
    assert Init(rows[..j + 1]) == rows[..j] && Last(rows[..j + 1]) == rows[j];
  }

  lemma {:induction false} OpenDayWasOpen(r: Rules, t: Tables, j: nat, d: int)
    requires Accepted(r, t) && 0 < j < |t.rows|
    requires DayOf(Replay(r, t.rows[..j + 1]), d).fact.Trading?
    ensures DayOf(Replay(r, t.rows[..j]), d) == DayOf(Replay(r, t.rows[..j + 1]), d)
  {
    RowLinks(r, t, j);
    ReplayNext(r, t.rows, j);
  }

  /** Later versions never reopen a day nor move the hours of one that is still open. */
  lemma {:induction false} OpenDaysOnlyShrink(r: Rules, t: Tables, i: nat, j: nat, d: int)
    requires Accepted(r, t) && i <= j < |t.rows|
    requires DayOf(Replay(r, t.rows[..j + 1]), d).fact.Trading?
    ensures DayOf(Replay(r, t.rows[..i + 1]), d) == DayOf(Replay(r, t.rows[..j + 1]), d)
    decreases j
  {
    if i < j {
      OpenDayWasOpen(r, t, j, d);
      OpenDaysOnlyShrink(r, t, i, j - 1, d);
    }
  }

  lemma {:induction false} ClocksIncrease(r: Rules, t: Tables, i: nat, j: nat)
    requires Accepted(r, t) && i < j < |t.rows|
    ensures t.rows[i].raw.Some? && t.rows[j].raw.Some?
    ensures t.rows[i].raw.value.observedAt < t.rows[j].raw.value.observedAt
    decreases j
  {
    RowLinks(r, t, j - 1);
    RowLinks(r, t, j);
    if i < j - 1 {
      ClocksIncrease(r, t, i, j - 1);
    }
  }

  lemma {:induction false} ShasAt(rows: seq<Row>, i: nat)
    requires i < |rows|
    ensures |Shas(rows)| == |rows| && Shas(rows)[i] == rows[i].sha
  {
    if i < |rows| - 1 {
      ShasAt(Init(rows), i);
    } else if i > 0 {
      ShasAt(Init(rows), 0);
    }
  }

  // ---- reading as of an instant ----------------------------------------------------------------

  /** The newest version observed no later than the cutoff. */
  function AsOf(r: Rules, rows: seq<Row>, cutoff: int): Option<Version> {
    if rows == [] then None
    else if Last(rows).raw.Some? && Last(rows).raw.value.observedAt <= cutoff then Some(VersionAt(r, rows, |rows| - 1))
    else AsOf(r, Init(rows), cutoff)
  }

  /** Whatever was published after the cutoff, the answer for the cutoff stays what it was. */
  lemma {:induction false} AsOfIgnoresLaterVersions(r: Rules, t: Tables, t': Tables, cutoff: int)
    requires Accepted(r, t) && Accepted(r, t') && t.rows <= t'.rows
    requires |t.rows| < |t'.rows| ==> t'.rows[|t.rows|].raw.Some? && cutoff < t'.rows[|t.rows|].raw.value.observedAt
    ensures AsOf(r, t'.rows, cutoff) == AsOf(r, t.rows, cutoff)
  {
    AsOfDropsTail(r, t', |t.rows|, |t'.rows|, cutoff);
    assert t'.rows[..|t'.rows|] == t'.rows && t'.rows[..|t.rows|] == t.rows;
  }

  lemma {:induction false} AsOfDropsTail(r: Rules, t: Tables, keep: nat, n: nat, cutoff: int)
    requires Accepted(r, t) && keep <= n <= |t.rows|
    requires keep < |t.rows| ==> t.rows[keep].raw.Some? && cutoff < t.rows[keep].raw.value.observedAt
    ensures AsOf(r, t.rows[..n], cutoff) == AsOf(r, t.rows[..keep], cutoff)
    decreases n
  {
    if keep < n {
      if keep < n - 1 {
        ClocksIncrease(r, t, keep, n - 1);
      }
      assert Init(t.rows[..n]) == t.rows[..n - 1] && Last(t.rows[..n]) == t.rows[n - 1];
      AsOfDropsTail(r, t, keep, n - 1, cutoff);
    }
  }

  /** Row `i` is the last of the first `n` rows observed no later than the cutoff. */
  predicate NewestObserved(rows: seq<Row>, n: nat, i: nat, cutoff: int)
    requires i < n <= |rows|
  {
    && rows[i].raw.Some?
    && rows[i].raw.value.observedAt <= cutoff
    && forall j :: i < j < n ==> rows[j].raw.Some? && cutoff < rows[j].raw.value.observedAt
  }

  lemma {:induction false} AsOfIsNewestObserved(r: Rules, t: Tables, n: nat, i: nat, cutoff: int)
    requires Accepted(r, t) && i < n <= |t.rows| && NewestObserved(t.rows, n, i, cutoff)
    ensures AsOf(r, t.rows[..n], cutoff) == Some(VersionAt(r, t.rows, i))
    decreases n
  {
    assert Init(t.rows[..n]) == t.rows[..n - 1] && Last(t.rows[..n]) == t.rows[n - 1];
    if i < n - 1 {
      AsOfIsNewestObserved(r, t, n - 1, i, cutoff);
    } else {
      assert t.rows[..n][..n - 1] == t.rows[..n - 1] && t.rows[..n][..n] == t.rows[..n];
    }
  }

  lemma {:induction false} AsOfNothingObserved(r: Rules, t: Tables, n: nat, cutoff: int)
    requires Accepted(r, t) && n <= |t.rows|
    requires forall j :: 0 <= j < n ==> t.rows[j].raw.Some? && cutoff < t.rows[j].raw.value.observedAt
    ensures AsOf(r, t.rows[..n], cutoff) == None
  {
    if n > 0 {
      assert Init(t.rows[..n]) == t.rows[..n - 1] && Last(t.rows[..n]) == t.rows[n - 1];
      AsOfNothingObserved(r, t, n - 1, cutoff);
    }
  }

  // ---- competing writers -------------------------------------------------------------------------

  lemma {:induction false} DigestsDistinct(r: Rules, t: Tables, i: nat, j: nat)
    requires Accepted(r, t) && CollisionFree(r, t.rows) && i < |t.rows| && j < |t.rows|
      && t.rows[i].sha == t.rows[j].sha
    ensures i == j
  {
    RowLinks(r, t, i);
    RowLinks(r, t, j);
    assert NoCollision(r, t.rows[i], t.rows[j]);
    if i < j {
      ClocksIncrease(r, t, i, j);
    }
    if j < i {
      ClocksIncrease(r, t, j, i);
    }
  }

  /** A parent digest is superseded by at most one version. */
  lemma {:induction false} OneVersionPerParent(r: Rules, t: Tables, i: nat, j: nat)
    requires Accepted(r, t) && CollisionFree(r, t.rows) && i < |t.rows| && j < |t.rows|
    requires t.rows[i].raw.Some? && t.rows[j].raw.Some? && t.rows[i].raw.value.parent == t.rows[j].raw.value.parent
    ensures i == j
  {
    RowLinks(r, t, i);
    RowLinks(r, t, j);
    if i > 0 && j > 0 {
      DigestsDistinct(r, t, i - 1, j - 1);
    }
  }

  /**
   Once some writer has built on a parent, every later writer naming that parent adds
   nothing: it is refused, or it repeats the notice of the present head and is answered by it.
   */
  lemma {:induction false} LosersAddNothing(r: Rules, t: Tables, i: nat, n: Notice, observedAt: int, now: int)
    requires Accepted(r, t) && CollisionFree(r, t.rows) && i + 1 < |t.rows|
    ensures var step := NoticeStep(r, t, n, t.rows[i].sha, observedAt, now);
      && (step.Ok? ==> step.value == t)
      && (step.Ok? <==>
            && observedAt <= now + CLOCK_ALLOWANCE
            && NoticeOk(r, n)
            && i + 2 == |t.rows|
            && Last(t.rows).raw.Some?
            && Last(t.rows).raw.value.material == MaterialOf(r, n))
  {
    BuiltOnParent(r, t, i);
    assert !Publishable(r, t, n, t.rows[i].sha, observedAt);
  }

  lemma {:induction false} BuiltOnParent(r: Rules, t: Tables, i: nat)
    requires Accepted(r, t) && CollisionFree(r, t.rows) && i + 1 < |t.rows|
    ensures Last(t.rows).raw.Some?
    ensures Last(t.rows).sha != t.rows[i].sha
    ensures Last(t.rows).raw.value.parent == Some(t.rows[i].sha) <==> i + 2 == |t.rows|
  {
    var last := |t.rows| - 1;
    RowLinks(r, t, last);
    if t.rows[last].sha == t.rows[i].sha {
      DigestsDistinct(r, t, last, i);
    }
    if t.rows[last - 1].sha == t.rows[i].sha {
      DigestsDistinct(r, t, last - 1, i);
    }
  }
}
