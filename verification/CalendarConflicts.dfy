/**
 Frozen bindings against later versions of one calendar journal: which conflicts last and which can
 clear.
 */
module CalendarConflicts {
  import opened Prelude
  import opened Calendar
  import opened CalendarJournal
  import Sorting

  /** Descent holds between versions of one journal exactly in journal order. */
  lemma {:induction false} DescendantsAreLater(r: Rules, t: Tables, i: nat, j: nat)
    requires Accepted(r, t) && CollisionFree(r, t.rows) && i < |t.rows| && j < |t.rows|
    requires t.rows[i].raw.Some? && t.rows[j].raw.Some?
    ensures i <= j <==>
      VersionAt(r, t.rows, i).digest in VersionAt(r, t.rows, j).ancestors
      || VersionAt(r, t.rows, i).digest == VersionAt(r, t.rows, j).digest
  {
    if i < j {
      ShasAt(t.rows[..j], i);
    }
    if t.rows[i].sha == t.rows[j].sha {
      DigestsDistinct(r, t, i, j);
    }
    if t.rows[i].sha in Shas(t.rows[..j]) {
      ShasContain(t.rows[..j], t.rows[i].sha);
      var k :| 0 <= k < j && t.rows[..j][k].sha == t.rows[i].sha;
      DigestsDistinct(r, t, i, k);
    }
  }

  lemma {:induction false} ShasContain(rows: seq<Row>, sha: string)
    requires sha in Shas(rows)
    ensures exists k :: 0 <= k < |rows| && rows[k].sha == sha
  {
    if Last(rows).sha == sha {
      assert rows[|rows| - 1].sha == sha;
    } else {
      ShasContain(Init(rows), sha);
      var k :| 0 <= k < |Init(rows)| && Init(rows)[k].sha == sha;
      assert rows[k].sha == sha;
    }
  }

  /** A conflict on a bound session is permanent: it shows in every later version. */
  lemma {:induction false} SessionConflictsPersist(r: Rules, t: Tables, i: nat, j: nat, k: nat, b: Binding, d: int)
    requires Accepted(r, t) && CollisionFree(r, t.rows) && i <= j <= k < |t.rows|
    requires t.rows[i].raw.Some? && t.rows[j].raw.Some? && t.rows[k].raw.Some?
    requires BindResult(VersionAt(r, t.rows, i), b.anchor, |b.sessions|) == Ok(b)
    ensures var atJ := Conflicts(b, VersionAt(r, t.rows, j), VersionAt(r, t.rows, i));
      var atK := Conflicts(b, VersionAt(r, t.rows, k), VersionAt(r, t.rows, i));
      atJ.Ok? && atK.Ok? && (d in atJ.value && d in ByDate(b.sessions) ==> d in atK.value)
  {
    var bound, vj, vk := VersionAt(r, t.rows, i), VersionAt(r, t.rows, j), VersionAt(r, t.rows, k);
    DescendantsAreLater(r, t, i, j);
    DescendantsAreLater(r, t, i, k);
    ConflictMeansDisagreement(b, vj, bound, d);
    ConflictMeansDisagreement(b, vk, bound, d);
    if DayOf(vk.days, d).fact.Trading? {
      OpenDaysOnlyShrink(r, t, j, k, d);
    }
    SessionIsTrading(b, bound, d);
  }

  lemma {:induction false} SessionIsTrading(b: Binding, bound: Version, d: int)
    requires BindResult(bound, b.anchor, |b.sessions|) == Ok(b)
    ensures d in ByDate(b.sessions) ==> DayOf(bound.days, d).fact.Trading?
  {
    SessionsAreOpenDays(bound.days, b.anchor, |b.sessions|);
    ByDateFinds(b.sessions, d);
  }

  /** A skipped date conflicts in a later version exactly when that version leaves it unknown. */
  lemma {:induction false} SkippedDateConflictsWhenUnknown(r: Rules, t: Tables, i: nat, k: nat, b: Binding, d: int)
    requires Accepted(r, t) && CollisionFree(r, t.rows) && i <= k < |t.rows|
    requires t.rows[i].raw.Some? && t.rows[k].raw.Some?
    requires BindResult(VersionAt(r, t.rows, i), b.anchor, |b.sessions|) == Ok(b)
    requires d !in ByDate(b.sessions) && b.anchor <= d <= Last(b.sessions).day
    ensures var atK := Conflicts(b, VersionAt(r, t.rows, k), VersionAt(r, t.rows, i));
      atK.Ok? && (d in atK.value <==> DayOf(VersionAt(r, t.rows, k).days, d).fact == Unknown)
  {
    var bound, vk := VersionAt(r, t.rows, i), VersionAt(r, t.rows, k);
    DescendantsAreLater(r, t, i, k);
    ConflictMeansDisagreement(b, vk, bound, d);
    ExpectedIsBoundDay(b, bound, d);
    if DayOf(vk.days, d).fact.Trading? {
      OpenDaysOnlyShrink(r, t, i, k, d);
    }
  }

  /** What the newest notice that names the date, after row `j` and up to row `k`, made of it. */
  function NewestMark(rows: seq<Row>, j: nat, k: nat, d: int): Option<Fact>
    requires k < |rows|
  {
    if k <= j then None
    else if rows[k].raw.Some? && d in rows[k].raw.value.material.dates then
      Some(MarkOf(rows[k].raw.value.material.kind))
    else NewestMark(rows, j, k - 1, d)
  }

  lemma {:induction false} FactFollowsNewestMark(r: Rules, t: Tables, j: nat, k: nat, d: int)
    requires Accepted(r, t) && j <= k < |t.rows|
    requires START <= d <= END && d in Replay(r, t.rows[..j + 1])
    ensures d in Replay(r, t.rows[..k + 1])
    ensures DayOf(Replay(r, t.rows[..k + 1]), d).fact ==
      match NewestMark(t.rows, j, k, d) {
        case Some(fact) => fact
        case None => DayOf(Replay(r, t.rows[..j + 1]), d).fact
      }
    decreases k
  {
    if j < k {
      FactFollowsNewestMark(r, t, j, k - 1, d);
      FactNext(r, t, k, d);
    }
  }

  lemma {:induction false} FactNext(r: Rules, t: Tables, k: nat, d: int)
    requires Accepted(r, t) && 0 < k < |t.rows|
    requires START <= d <= END && d in Replay(r, t.rows[..k])
    ensures t.rows[k].raw.Some? && d in Replay(r, t.rows[..k + 1])
    ensures var m := t.rows[k].raw.value.material;
      DayOf(Replay(r, t.rows[..k + 1]), d).fact ==
        if d in m.dates then MarkOf(m.kind) else DayOf(Replay(r, t.rows[..k]), d).fact
  {
    RowLinks(r, t, k);
    ReplayNext(r, t.rows, k);
  }

  /** A skipped date conflicts exactly while the newest notice on it since the binding marks it unknown. */
  lemma {:induction false} SkippedDateConflictsExactlyWhen(r: Rules, t: Tables, i: nat, k: nat, b: Binding, d: int)
    requires Accepted(r, t) && CollisionFree(r, t.rows) && i <= k < |t.rows|
    requires t.rows[i].raw.Some? && t.rows[k].raw.Some?
    requires BindResult(VersionAt(r, t.rows, i), b.anchor, |b.sessions|) == Ok(b)
    requires d !in ByDate(b.sessions) && b.anchor <= d <= Last(b.sessions).day
    ensures var atK := Conflicts(b, VersionAt(r, t.rows, k), VersionAt(r, t.rows, i));
      atK.Ok? && (d in atK.value <==> NewestMark(t.rows, i, k, d) == Some(Unknown))
  {
    SkippedDateConflictsWhenUnknown(r, t, i, k, b, d);
    ExpectedIsBoundDay(b, VersionAt(r, t.rows, i), d);
    FactFollowsNewestMark(r, t, i, k, d);
  }

  /** Such a conflict is still there in a later version exactly when no closing notice came last. */
  lemma {:induction false} SkippedDateConflictPersistsExactlyWhen(
    r: Rules, t: Tables, i: nat, j: nat, k: nat, b: Binding, d: int)
    requires Accepted(r, t) && CollisionFree(r, t.rows) && i <= j <= k < |t.rows|
    requires t.rows[i].raw.Some? && t.rows[j].raw.Some? && t.rows[k].raw.Some?
    requires BindResult(VersionAt(r, t.rows, i), b.anchor, |b.sessions|) == Ok(b)
    requires d !in ByDate(b.sessions) && b.anchor <= d <= Last(b.sessions).day
    requires Conflicts(b, VersionAt(r, t.rows, j), VersionAt(r, t.rows, i)).Ok?
    requires d in Conflicts(b, VersionAt(r, t.rows, j), VersionAt(r, t.rows, i)).value
    ensures var atK := Conflicts(b, VersionAt(r, t.rows, k), VersionAt(r, t.rows, i));
      atK.Ok? && (d in atK.value <==> NewestMark(t.rows, j, k, d) != Some(Closed))
  {
    SkippedDateConflictsWhenUnknown(r, t, i, j, b, d);
    SkippedDateConflictsWhenUnknown(r, t, i, k, b, d);
    ExpectedIsBoundDay(b, VersionAt(r, t.rows, i), d);
    FactFollowsNewestMark(r, t, i, j, d);
    FactFollowsNewestMark(r, t, j, k, d);
    MarksAreKnown(t.rows, j, k, d);
  }

  lemma {:induction false} MarksAreKnown(rows: seq<Row>, j: nat, k: nat, d: int)
    requires k < |rows|
    ensures NewestMark(rows, j, k, d) in {None, Some(Unknown), Some(Closed)}
  {
    if j < k {
      MarksAreKnown(rows, j, k - 1, d);
    }
  }

  // ---- a conflict that clears --------------------------------------------------------------------------

  /** Two sessions around a closed day, observed at 0; each digest is the number of the version. */
  function SampleRules(): Rules {
    Rules(
      (f: Stored) => if f.parent == None then "0" else if f.parent == Some("0") then "1" else "2",
      source => source, (source, url, review) => true, reason => false, instant => 0,
      map[START := Trading(1, 2), START + 1 := Closed, START + 2 := Trading(3, 4)], "s", "u", 0)
  }

  function SampleMaterial(kind: NoticeKind, dates: seq<int>, reason: string): Material {
    Material(kind, dates, reason, "s", "u", 0, "")
  }

  /** The baseline, a notice that marks the closed day, and a notice that closes it. */
  function SampleTables(): Tables {
    var open := SampleRules().baseline;
    Tables(map["s" := "s"], [
      Row(1, "0", Some(Stored(0, None, SampleMaterial(Baseline, [], BASELINE_REASON), open))),
      Row(2, "1", Some(Stored(1, Some("0"), SampleMaterial(Marking, [START + 1], ""), open[START + 1 := Unknown]))),
      Row(3, "2", Some(Stored(2, Some("1"), SampleMaterial(Closing, [START + 1], ""), open)))])
  }

  lemma {:induction false} SampleReplay()
    ensures var r, rows := SampleRules(), SampleTables().rows;
      && Replay(r, rows[..1]) == r.baseline
      && Replay(r, rows[..2]) == r.baseline[START + 1 := Unknown]
      && Replay(r, rows[..3]) == r.baseline
  {
    var r, rows := SampleRules(), SampleTables().rows;
    ReplayNext(r, rows, 1);
    ReplayNext(r, rows, 2);
  }

  lemma {:induction false} SampleFits(i: nat)
    requires i < 3
    ensures FitsAt(SampleRules(), SampleTables().sources, SampleTables().rows, i)
  {
    var r, t := SampleRules(), SampleTables();
    var row := t.rows[i];
    SampleReplay();
    assert t.rows[..i] + [row] == t.rows[..i + 1];
    assert r.baseline[START + 1 := Unknown][START + 1] != r.baseline[START + 1];
    if i > 0 {
      SampleNotice(row.raw.value.material);
      assert Last(t.rows[..i]) == t.rows[i - 1];
    }
  }

  lemma {:induction false} SampleNotice(m: Material)
    requires m == SampleMaterial(Marking, [START + 1], "") || m == SampleMaterial(Closing, [START + 1], "")
    ensures NoticeOk(SampleRules(), NoticeOf(m, "s")) && MaterialOf(SampleRules(), NoticeOf(m, "s")) == m
  {
    Sorting.SortKeepsSorted(Sorting.Earlier(), m.dates);
  }

  lemma {:induction false} SampleIsAccepted()
    ensures Accepted(SampleRules(), SampleTables()) && CollisionFree(SampleRules(), SampleTables().rows)
  {
    var r, t := SampleRules(), SampleTables();
    forall i | 0 <= i < |t.rows| ensures FitsAt(r, t.sources, t.rows, i) {
      SampleFits(i);
    }
    SampleUses();
    forall i, j | 0 <= i < 3 && 0 <= j < 3 ensures NoCollision(r, t.rows[i], t.rows[j]) {
      SampleDigest(i);
      SampleDigest(j);
    }
  }

  lemma {:induction false} SampleDigest(i: nat)
    requires i < 3
    ensures SampleTables().rows[i].sha == ["0", "1", "2"][i]
    ensures SampleRules().versionSha(SampleTables().rows[i].raw.value) == SampleTables().rows[i].sha
  {
  }

  lemma {:induction false} SampleUses()
    ensures Used(SampleTables().rows) == {"s"}
  {
    var rows := SampleTables().rows;
    assert forall i :: 0 <= i < 3 ==> rows[i].raw.Some? && rows[i].raw.value.material.sourceSha == "s";
    assert rows[0] in rows;
  }

  lemma {:induction false} SampleSessions()
    ensures Sessions(SampleRules().baseline, START, 2) == Some(SampleBinding().sessions)
  {
    var days := SampleRules().baseline;
    assert Sessions(days, START + 3, 0) == Some([]);
    var last := [DayOf(days, START + 2)] + [];
    assert Sessions(days, START + 2, 1) == Some(last);
    assert Sessions(days, START + 1, 1) == Some(last);
    assert Sessions(days, START, 2) == Some([DayOf(days, START)] + last);
    assert [DayOf(days, START)] + last == SampleBinding().sessions;
  }

  function SampleBinding(): Binding {
    Binding("0", START, [Day(START, Trading(1, 2)), Day(START + 2, Trading(3, 4))])
  }

  function SampleVersion(k: nat): Version {
    var days := SampleRules().baseline;
    if k == 0 then Version("0", None, 0, days, [])
    else if k == 1 then Version("1", Some("0"), 1, days[START + 1 := Unknown], ["0"])
    else Version("2", Some("1"), 2, days, ["0", "1"])
  }

  lemma {:induction false} SampleIsVersionAt(k: nat)
    requires k < 3
    ensures VersionAt(SampleRules(), SampleTables().rows, k) == SampleVersion(k)
  {
    SampleReplay();
    SampleShas();
  }

  lemma {:induction false} SampleShas()
    ensures var rows := SampleTables().rows;
      Shas(rows[..0]) == [] && Shas(rows[..1]) == ["0"] && Shas(rows[..2]) == ["0", "1"]
  {
    var rows := SampleTables().rows;
    assert Init(rows[..1]) == rows[..0] && Shas(rows[..1]) == [] + ["0"];
    assert Init(rows[..2]) == rows[..1] && Shas(rows[..2]) == ["0"] + ["1"];
  }

  lemma {:induction false} SampleDiffers(days: Days)
    requires DayOf(days, START) == SampleBinding().sessions[0] && DayOf(days, START + 2) == SampleBinding().sessions[1]
    ensures Differing(SampleBinding(), days, START, START + 2) ==
      if DayOf(days, START + 1) == Day(START + 1, Closed) then [] else [START + 1]
  {
    var b := SampleBinding();
    assert Init(b.sessions) == [b.sessions[0]] && Init(Init(b.sessions)) == [];
    assert Differing(b, days, START + 3, START + 2) == [];
    assert Differing(b, days, START + 2, START + 2) == [];
    assert Differing(b, days, START + 1, START + 2) ==
      if DayOf(days, START + 1) == Day(START + 1, Closed) then [] else [START + 1];
  }

  lemma {:induction false} SampleConflicts(k: nat)
    requires k < 3
    ensures BindResult(SampleVersion(0), START, |SampleBinding().sessions|) == Ok(SampleBinding())
    ensures Conflicts(SampleBinding(), SampleVersion(k), SampleVersion(0)) == Ok(if k == 1 then [START + 1] else [])
  {
    SampleSessions();
    SampleDiffers(SampleVersion(k).days);
    assert k > 0 ==> SampleVersion(k).ancestors[0] == "0";
  }

  /** In this accepted journal a conflict on a skipped date is there in one version and gone in the next. */
  lemma {:induction false} SkippedDateConflictCanClear()
    ensures Accepted(SampleRules(), SampleTables()) && CollisionFree(SampleRules(), SampleTables().rows)
    ensures forall k :: 0 <= k < 3 ==> VersionAt(SampleRules(), SampleTables().rows, k) == SampleVersion(k)
    ensures BindResult(SampleVersion(0), START, |SampleBinding().sessions|) == Ok(SampleBinding())
    ensures Conflicts(SampleBinding(), SampleVersion(1), SampleVersion(0)) == Ok([START + 1])
    ensures Conflicts(SampleBinding(), SampleVersion(2), SampleVersion(0)) == Ok([])
  {
    SampleIsAccepted();
    forall k | 0 <= k < 3 ensures VersionAt(SampleRules(), SampleTables().rows, k) == SampleVersion(k) {
      SampleIsVersionAt(k);
    }
    SampleConflicts(1);
    SampleConflicts(2);
  }
}
