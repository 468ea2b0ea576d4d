/**
 What binding, publishing and validating calendar versions mean on the stored columns: the run of
 open days a binding lists, the conditions of a notice, and the row that follows a row.
 */
module CalendarNotices {
  import opened Prelude
  import opened Calendar
  import opened CalendarJournal
  import Sorting

  // ---- binding -----------------------------------------------------------------------

  /** The days from the anchor through the last listed one are known, and the open ones are listed. */
  predicate OpenRun(days: Days, anchor: int, s: seq<Day>) {
    && s != []
    && s[0].day == anchor
    && (forall i, j :: 0 <= i < j < |s| ==> s[i].day < s[j].day)
    && (forall i :: 0 <= i < |s| ==> s[i].day in days && s[i].fact == days[s[i].day] && s[i].fact.Trading?)
    && (forall d :: anchor <= d <= Last(s).day ==> KnownAndListed(days, s, d))
  }

  predicate KnownAndListed(days: Days, s: seq<Day>, d: int) {
    && 739617 <= d <= 740712
    && d in days
    && days[d] != Unknown
    && (days[d].Trading? ==> exists i :: 0 <= i < |s| && s[i].day == d)
  }

  /** A binding succeeds with these sessions exactly when they are the run of that length. */
  lemma {:induction false} BindsExactlyWhen(v: Version, anchor: int, count: int, s: seq<Day>)
    ensures BindResult(v, anchor, count) == Ok(Binding(v.digest, anchor, s)) <==>
      1 <= count <= 252 && |s| == count && OpenRun(v.days, anchor, s)
    ensures BindResult(v, anchor, count).Ok? ==>
      BindResult(v, anchor, count).value.version == v.digest && BindResult(v, anchor, count).value.anchor == anchor
  {
    if BindResult(v, anchor, count) == Ok(Binding(v.digest, anchor, s)) {
      SessionsAreRun(v.days, anchor, s);
    }
    if 1 <= count <= 252 && |s| == count && OpenRun(v.days, anchor, s) {
      assert KnownAndListed(v.days, s, anchor);
      RunIsSessions(v.days, anchor, s);
    }
  }

  lemma {:induction false} SessionsAreRun(days: Days, anchor: int, s: seq<Day>)
    requires s != [] && DayOf(days, anchor).fact.Trading? && Sessions(days, anchor, |s|) == Some(s)
    ensures OpenRun(days, anchor, s)
  {
    SessionsAreOpenDays(days, anchor, |s|);
    forall d | anchor <= d <= Last(s).day ensures KnownAndListed(days, s, d) {
      SessionsSkipOnlyClosed(days, anchor, |s|, d);
      if DayOf(days, d).fact.Trading? {
        var i :| 0 <= i < |s| && s[i] == DayOf(days, d);
        assert s[i].day == d;
      }
    }
  }

  lemma {:induction false} RunIsSessions(days: Days, day: int, s: seq<Day>)
    requires s != [] ==> day <= s[0].day
    requires forall i, j :: 0 <= i < j < |s| ==> s[i].day < s[j].day
    requires forall i :: 0 <= i < |s| ==> s[i].day in days && s[i].fact == days[s[i].day] && s[i].fact.Trading?
    requires s != [] ==> forall d :: day <= d <= Last(s).day ==> KnownAndListed(days, s, d)
    ensures Sessions(days, day, |s|) == Some(s)
    decreases END + 1 - day
  {
    if s != [] {
      assert s[0].day <= Last(s).day;
      assert KnownAndListed(days, s, day);
      if s[0].day == day {
        var rest := s[1..];
        forall d | rest != [] && day + 1 <= d <= Last(rest).day ensures KnownAndListed(days, rest, d) {
          assert KnownAndListed(days, s, d);
          if days[d].Trading? {
            var i :| 0 <= i < |s| && s[i].day == d;
            assert rest[i - 1].day == d;
          }
        }
        RunIsSessions(days, day + 1, rest);
        assert [s[0]] + rest == s;
      } else {
        assert !days[day].Trading?;
        RunIsSessions(days, day + 1, s);
      }
    }
  }

  /** Versions of one journal are compared exactly from the bound version on. */
  lemma {:induction false} ComparedExactlyWhenLater(r: Rules, t: Tables, i: nat, j: nat, b: Binding)
    requires Accepted(r, t) && CollisionFree(r, t.rows) && i < |t.rows| && j < |t.rows|
    requires t.rows[i].raw.Some? && t.rows[j].raw.Some?
    ensures Conflicts(b, VersionAt(r, t.rows, j), VersionAt(r, t.rows, i)).Ok? <==>
      && i <= j
      && b.version == t.rows[i].sha
      && 1 <= |b.sessions| <= 252
      && OpenRun(t.rows[i].raw.value.days, b.anchor, b.sessions)
  {
    var bound, later := VersionAt(r, t.rows, i), VersionAt(r, t.rows, j);
    VersionIsRow(r, t, i);
    VersionIsRow(r, t, j);
    BindsExactlyWhen(bound, b.anchor, |b.sessions|, b.sessions);
    if i < j {
      assert later.ancestors[i] == bound.digest;
    }
    if bound.digest == later.digest {
      DigestsDistinct(r, t, i, j);
    }
    if bound.digest in later.ancestors {
      var k :| 0 <= k < j && later.ancestors[k] == bound.digest;
      DigestsDistinct(r, t, i, k);
    }
  }

  // ---- versions and rows -----------------------------------------------------------------

  /** A version repeats the columns of its row; its ancestors are the digests of all rows before. */
  lemma {:induction false} VersionIsRow(r: Rules, t: Tables, i: nat)
    requires Accepted(r, t) && i < |t.rows|
    ensures t.rows[i].raw.Some?
    ensures var v, f := VersionAt(r, t.rows, i), t.rows[i].raw.value;
      && v.digest == t.rows[i].sha
      && v.parent == f.parent
      && v.observedAt == f.observedAt
      && v.days == f.days
      && |v.ancestors| == i
      && (forall k :: 0 <= k < i ==> v.ancestors[k] == t.rows[k].sha)
  {
    StoredDaysAreReplay(r, t, i);
    forall k | 0 <= k < i ensures |Shas(t.rows[..i])| == i && Shas(t.rows[..i])[k] == t.rows[k].sha {
      ShasAt(t.rows[..i], k);
    }
  }

  /** The source bytes a row names are kept, acceptable, and not published after the observation. */
  predicate Sourced(r: Rules, sources: map<string, string>, f: Stored) {
    && f.material.sourceSha in sources
    && r.sourceOk(sources[f.material.sourceSha], f.material.url, f.material.review)
    && f.material.publishedOn <= r.localDay(f.observedAt)
  }

  /** The published annual calendar as the first row. */
  predicate OpensJournal(r: Rules, sources: map<string, string>, x: Row) {
    && x.raw.Some?
    && var f := x.raw.value;
    && x.sequence == 1
    && x.sha == r.versionSha(f)
    && Sourced(r, sources, f)
    && f.parent == None
    && f.material == Material(Baseline, [], "published annual baseline", r.baselineSha, r.baselineUrl,
      r.baselinePublished, f.material.review)
    && f.days == r.baseline
  }

  /** Row `y` is a legal successor of row `x`. */
  predicate FollowsRow(r: Rules, sources: map<string, string>, x: Row, y: Row) {
    && x.raw.Some?
    && y.raw.Some?
    && var f, g := x.raw.value, y.raw.value;
    && y.sequence == x.sequence + 1
    && y.sha == r.versionSha(g)
    && Sourced(r, sources, g)
    && g.parent == Some(x.sha)
    && f.observedAt < g.observedAt
    && (g.material.kind == Closing || g.material.kind == Marking)
    && g.material.dates != []
    && (forall i, j :: 0 <= i < j < |g.material.dates| ==> g.material.dates[i] < g.material.dates[j])
    && (forall d :: d in g.material.dates ==> 739617 <= d <= 740712)
    && !r.blank(g.material.reason)
    && Rewrites(f.days, g.material.kind, g.material.dates, g.days)
    && g.days != f.days
  }

  /** `b` is `a` with the named dates closed, or marked unknown. */
  predicate Rewrites(a: Days, kind: NoticeKind, dates: seq<int>, b: Days) {
    && b.Keys == a.Keys
    && forall d :: d in a ==>
      b[d] == if d !in dates then a[d] else if kind == Marking then Unknown else Closed
  }

  lemma {:induction false} ChangedRewrites(a: Days, kind: NoticeKind, dates: seq<int>, b: Days)
    ensures b == Changed(a, MarkOf(kind), dates) <==> Rewrites(a, kind, dates, b)
  {
    var c := Changed(a, MarkOf(kind), dates);
    assert c.Keys == a.Keys;
    if Rewrites(a, kind, dates, b) {
      forall d | d in a ensures c[d] == b[d] {
      }
      assert c == b;
    }
  }

  /** A journal is accepted exactly when the baseline opens it and every row follows the one before. */
  lemma {:induction false} AcceptedExactlyWhen(r: Rules, t: Tables)
    ensures Accepted(r, t) <==>
      && t.rows != []
      && OpensJournal(r, t.sources, t.rows[0])
      && Followed(r, t.sources, t.rows)
      && Keyed(r, t.sources)
      && (forall sha :: sha in t.sources ==> Names(t.rows, sha))
  {
    if Accepted(r, t) {
      AcceptedFollows(r, t);
    }
    if t.rows != [] && OpensJournal(r, t.sources, t.rows[0]) && Followed(r, t.sources, t.rows) && Keyed(r, t.sources)
      && (forall sha :: sha in t.sources ==> Names(t.rows, sha))
    {
      FollowedAccepted(r, t);
    }
  }

  predicate Followed(r: Rules, sources: map<string, string>, rows: seq<Row>) {
    forall i :: 0 < i < |rows| ==> FollowsRow(r, sources, rows[i - 1], rows[i])
  }

  lemma {:induction false} AcceptedFollows(r: Rules, t: Tables)
    requires Accepted(r, t)
    ensures OpensJournal(r, t.sources, t.rows[0]) && Followed(r, t.sources, t.rows) && Keyed(r, t.sources)
    ensures forall sha :: sha in t.sources ==> Names(t.rows, sha)
  {
    FitsHolds(r, t, 0);
    assert t.rows[..0] == [];
    OpeningFits(r, t.sources, t.rows[0]);
    forall i | 0 < i < |t.rows| ensures FollowsRow(r, t.sources, t.rows[i - 1], t.rows[i]) {
      PriorFits(r, t.sources, t.rows, i);
    }
    forall sha | sha in t.sources ensures Names(t.rows, sha) {
      assert sha in Used(t.rows);
    }
  }

  lemma {:induction false} FollowedAccepted(r: Rules, t: Tables)
    requires t.rows != [] && OpensJournal(r, t.sources, t.rows[0]) && Followed(r, t.sources, t.rows)
    requires Keyed(r, t.sources) && forall sha :: sha in t.sources ==> Names(t.rows, sha)
    ensures Accepted(r, t)
  {
    FollowersFit(r, t.sources, t.rows, |t.rows|);
    assert t.rows[..|t.rows|] == t.rows;
    forall i | 0 <= i < |t.rows| ensures t.rows[i].raw.Some? && t.rows[i].raw.value.material.sourceSha in t.sources {
      assert FitsAt(r, t.sources, t.rows, i);
    }
    assert Used(t.rows) == t.sources.Keys;
  }

  /** Some row refers to the source bytes of that digest. */
  predicate Names(rows: seq<Row>, sha: string) {
    exists x :: x in rows && x.raw.Some? && x.raw.value.material.sourceSha == sha
  }

  lemma {:induction false} OpeningFits(r: Rules, sources: map<string, string>, x: Row)
    ensures Fits(r, sources, [], x) <==> OpensJournal(r, sources, x)
  {
    assert [] + [x] == [x];
  }

  /** Source bytes are stored under their digest. */
  predicate Keyed(r: Rules, sources: map<string, string>) {
    forall sha :: sha in sources ==> sha == r.sourceSha(sources[sha])
  }

  /** Over a well-formed prefix a row fits exactly when it follows the last row. */
  lemma {:induction false} FitsExactlyWhenFollows(r: Rules, sources: map<string, string>, prior: seq<Row>, y: Row)
    requires Keyed(r, sources) && prior != [] && Last(prior).raw.Some?
    requires Last(prior).sequence == |prior| && Last(prior).raw.value.days == Replay(r, prior)
    ensures Fits(r, sources, prior, y) <==> FollowsRow(r, sources, Last(prior), y)
  {
    if y.raw.Some? {
      var f, g := Last(prior).raw.value, y.raw.value;
      assert Init(prior + [y]) == prior;
      ChangedRewrites(f.days, g.material.kind, g.material.dates, g.days);
      if Sourced(r, sources, g) {
        MaterialIsSorted(r, g.material, sources[g.material.sourceSha]);
      }
    }
  }

  lemma {:induction false} PriorFits(r: Rules, sources: map<string, string>, rows: seq<Row>, i: nat)
    requires Keyed(r, sources) && 0 < i < |rows| && Chained(r, sources, rows)
    ensures FollowsRow(r, sources, rows[i - 1], rows[i])
  {
    assert FitsAt(r, sources, rows, i - 1) && FitsAt(r, sources, rows, i);
    assert rows[..i] == rows[..i - 1] + [rows[i - 1]];
    FitsExactlyWhenFollows(r, sources, rows[..i], rows[i]);
  }

  lemma {:induction false} FollowersFit(r: Rules, sources: map<string, string>, rows: seq<Row>, n: nat)
    requires Keyed(r, sources) && 0 < n <= |rows| && OpensJournal(r, sources, rows[0])
    requires Followed(r, sources, rows)
    ensures Chained(r, sources, rows[..n])
    ensures rows[n - 1].raw.Some?
    ensures rows[n - 1].sequence == n && rows[n - 1].raw.value.days == Replay(r, rows[..n])
  {
    var prior, x := rows[..n - 1], rows[n - 1];
    assert rows[..n] == prior + [x];
    if n == 1 {
      OpeningFits(r, sources, x);
    } else {
      FollowersFit(r, sources, rows, n - 1);
      FitsExactlyWhenFollows(r, sources, prior, x);
    }
    ChainedNext(r, sources, prior, x);
  }

  /** A stored material comes from a legal notice exactly when its dates ascend and its fields are legal. */
  lemma {:induction false} MaterialIsSorted(r: Rules, m: Material, source: string)
    requires r.sourceOk(source, m.url, m.review)
    ensures var n := NoticeOf(m, source);
      NoticeOk(r, n) && MaterialOf(r, n) == m <==>
        && (m.kind == Closing || m.kind == Marking)
        && m.dates != []
        && (forall i, j :: 0 <= i < j < |m.dates| ==> m.dates[i] < m.dates[j])
        && (forall d :: d in m.dates ==> 739617 <= d <= 740712)
        && !r.blank(m.reason)
        && r.sourceSha(source) == m.sourceSha
  {
    Sorting.SortSorts(Sorting.Earlier(), m.dates);
    if forall i, j :: 0 <= i < j < |m.dates| ==> m.dates[i] < m.dates[j] {
      Sorting.SortKeepsSorted(Sorting.Earlier(), m.dates);
    }
  }

  // ---- publishing ------------------------------------------------------------------------

  /** A notice closes dates or marks them unknown, for a stated reason and from an acceptable source. */
  predicate Usable(r: Rules, n: Notice) {
    && (n.kind == Closing || n.kind == Marking)
    && |n.dates| >= 1
    && (forall i, j :: 0 <= i < j < |n.dates| ==> n.dates[i] != n.dates[j])
    && (forall d :: d in n.dates ==> 739617 <= d <= 740712)
    && r.sourceOk(n.source, n.url, n.review)
    && !r.blank(n.reason)
  }

  /** The stored material of a row is that of the notice; dates are compared as a set. */
  predicate Repeats(r: Rules, m: Material, n: Notice) {
    && m.kind == n.kind
    && multiset(m.dates) == multiset(n.dates)
    && m.reason == n.reason
    && m.sourceSha == r.sourceSha(n.source)
    && m.url == n.url
    && m.publishedOn == n.publishedOn
    && m.review == n.review
  }

  /** Some named date is covered and not yet recorded the way the notice records it. */
  predicate Affects(days: Days, n: Notice) {
    exists d :: d in n.dates && d in days && days[d] != if n.kind == Marking then Unknown else Closed
  }

  /**
   A writer call succeeds exactly when the notice is usable, its clock is at most five seconds ahead,
   and it either repeats the newest row under the same parent, which changes nothing, or names the
   newest row, is observed after it, was published by then, and changes some covered date; then one
   row is added.
   */
  lemma {:induction false} PublishedExactlyWhen(
    r: Rules, t: Tables, n: Notice, parent: string, observedAt: int, now: int)
    requires Accepted(r, t)
    ensures Last(t.rows).raw.Some?
    ensures var step, head, f := NoticeStep(r, t, n, parent, observedAt, now), Last(t.rows), Last(t.rows).raw.value;
      var retry := f.parent == Some(parent) && Repeats(r, f.material, n);
      && (step.Ok? <==>
            && observedAt <= now + 5_000_000
            && Usable(r, n)
            && (retry || (
                  && head.sha == parent
                  && f.observedAt < observedAt
                  && n.publishedOn <= r.localDay(observedAt)
                  && Affects(f.days, n))))
      && (step.Ok? && retry ==> step.value == t)
      && (step.Ok? && !retry ==> AddsRow(r, t, n, observedAt, step.value))
  {
    HeadReadable(r, t);
    if NoticeOk(r, n) {
      RetryMeans(r, t, n, parent);
      PublishableMeans(r, t, n, parent, observedAt);
      AddedRow(r, t, n, observedAt);
    }
  }

  lemma {:induction false} RetryMeans(r: Rules, t: Tables, n: Notice, parent: string)
    requires Accepted(r, t) && NoticeOk(r, n) && Last(t.rows).raw.Some?
    ensures var f := Last(t.rows).raw.value;
      IsRetry(r, t.rows, n, parent) <==> f.parent == Some(parent) && Repeats(r, f.material, n)
  {
    AcceptedFollows(r, t);
    RepeatIsSameMaterial(r, t, n);
  }

  lemma {:induction false} PublishableMeans(r: Rules, t: Tables, n: Notice, parent: string, observedAt: int)
    requires Accepted(r, t) && Last(t.rows).raw.Some?
    ensures var head, f := Last(t.rows), Last(t.rows).raw.value;
      && f.days == Replay(r, t.rows)
      && (Publishable(r, t, n, parent, observedAt) <==>
            && head.sha == parent
            && f.observedAt < observedAt
            && n.publishedOn <= r.localDay(observedAt)
            && Affects(f.days, n))
  {
    StoredDaysAreReplay(r, t, |t.rows| - 1);
    assert t.rows[..|t.rows|] == t.rows;
    EffectIsVisible(Last(t.rows).raw.value.days, n);
  }

  lemma {:induction false} EffectIsVisible(days: Days, n: Notice)
    ensures Changed(days, MarkOf(n.kind), n.dates) != days <==> Affects(days, n)
  {
    var c := Changed(days, MarkOf(n.kind), n.dates);
    assert c.Keys == days.Keys;
    if !Affects(days, n) {
      forall d | d in days ensures c[d] == days[d] {
      }
      assert c == days;
    }
  }

  lemma {:induction false} RepeatIsSameMaterial(r: Rules, t: Tables, n: Notice)
    requires t.rows != [] && Last(t.rows).raw.Some? && n.kind != Baseline
    requires OpensJournal(r, t.sources, t.rows[0]) && Followed(r, t.sources, t.rows)
    ensures Last(t.rows).raw.value.material == MaterialOf(r, n) <==> Repeats(r, Last(t.rows).raw.value.material, n)
  {
    var m := Last(t.rows).raw.value.material;
    Sorting.SortContents(Sorting.Earlier(), n.dates);
    Sorting.SortSorts(Sorting.Earlier(), n.dates);
    if |t.rows| > 1 && multiset(m.dates) == multiset(n.dates) {
      assert FollowsRow(r, t.sources, t.rows[|t.rows| - 2], Last(t.rows));
      SortedOnce(m.dates, Sorting.Sort(Sorting.Earlier(), n.dates));
    }
  }

  /** There is one way to put numbers in order. */
  lemma {:induction false} SortedOnce(a: seq<int>, b: seq<int>)
    requires Sorting.SortedBy(Sorting.Earlier(), a) && Sorting.SortedBy(Sorting.Earlier(), b)
    requires multiset(a) == multiset(b)
    ensures a == b
  {
    SameLength(a, b);
    if a != [] {
      LeastFirst(a, b);
      LeastFirst(b, a);
      assert multiset(a[1..]) == multiset(b[1..]) by {
        WithoutFirst(a);
        WithoutFirst(b);
      }
      SortedOnce(a[1..], b[1..]);
    }
  }

  lemma {:induction false} WithoutFirst(a: seq<int>)
    requires a != []
    ensures multiset(a[1..]) == multiset(a) - multiset{a[0]}
  {
    assert a == [a[0]] + a[1..];
  }

  lemma {:induction false} SameLength(a: seq<int>, b: seq<int>)
    requires multiset(a) == multiset(b)
    ensures |a| == |b|
  {
    assert |multiset(a)| == |a| && |multiset(b)| == |b|;
  }

  lemma {:induction false} LeastFirst(a: seq<int>, b: seq<int>)
    requires Sorting.SortedBy(Sorting.Earlier(), a) && multiset(a) == multiset(b) && a != [] && b != []
    ensures a[0] <= b[0]
  {
    assert b[0] in multiset(b);
    var i :| 0 <= i < |a| && a[i] == b[0];
    assert i > 0 ==> Sorting.Earlier()(a[0], a[i]);
  }

  /** The tables with the notice's bytes kept and its row added. */
  predicate AddsRow(r: Rules, t: Tables, n: Notice, observedAt: int, t': Tables)
    requires t.rows != [] && Last(t.rows).raw.Some?
  {
    var sha := r.sourceSha(n.source);
    && t'.sources == (if sha in t.sources then t.sources else t.sources[sha := n.source])
    && |t'.rows| == |t.rows| + 1
    && t'.rows[..|t.rows|] == t.rows
    && Last(t'.rows).raw.Some?
    && var g := Last(t'.rows).raw.value;
    && Last(t'.rows).sequence == |t.rows| + 1
    && Last(t'.rows).sha == r.versionSha(g)
    && g.observedAt == observedAt
    && g.parent == Some(Last(t.rows).sha)
    && Repeats(r, g.material, n)
    && (forall i, j :: 0 <= i < j < |g.material.dates| ==> g.material.dates[i] <= g.material.dates[j])
    && Rewrites(Last(t.rows).raw.value.days, n.kind, n.dates, g.days)
  }

  lemma {:induction false} AddedRow(r: Rules, t: Tables, n: Notice, observedAt: int)
    requires t.rows != [] && Last(t.rows).raw.Some? && Last(t.rows).raw.value.days == Replay(r, t.rows)
    ensures AddsRow(r, t, n, observedAt, Extended(r, t, n, observedAt))
  {
    var days := Replay(r, t.rows);
    Sorting.SortContents(Sorting.Earlier(), n.dates);
    Sorting.SortSorts(Sorting.Earlier(), n.dates);
    SortedDatesChangeTheSame(r, days, n);
    ChangedRewrites(days, n.kind, n.dates, Changed(days, MarkOf(n.kind), n.dates));
  }
}
