/**
 What the counters, windows and assignments of the folds mean: sizes of sets of positions, days
 counted from the first filing, and sums over the completed folds.
 */
module FoldCounts {
  import opened Prelude
  import opened ForwardReturns
  import opened Buckets
  import opened Folds
  import Sorting

  // ---- counters as sizes of sets -----------------------------------------------------------------

  /** Positions of the test events with that bucket, and of those without any. */
  function InBucket(test: seq<Event>, a: Assignment, bucket: nat): set<nat> {
    set i: nat | i < |test| && test[i].packet in a && a[test[i].packet] == bucket
  }

  function Missing(test: seq<Event>, a: Assignment): set<nat> {
    set i: nat | i < |test| && test[i].packet !in a
  }

  /** Positions of the observations that traded, or were skipped for that reason. */
  function Trades(xs: seq<Observation>, a: Assignment, horizon: int, bucket: nat): set<nat> {
    set i: nat | i < |xs| && xs[i].horizon == horizon && xs[i].packet in a && a[xs[i].packet] == bucket
      && xs[i].outcome.Traded?
  }

  function Skips(xs: seq<Observation>, a: Assignment, horizon: int, reason: Reason): set<nat> {
    set i: nat | i < |xs| && xs[i].horizon == horizon && xs[i].packet in a && xs[i].outcome == Skipped(reason)
  }

  /** One more position makes a set of earlier positions one larger. */
  lemma {:induction false} OneMorePosition(before: set<nat>, after: set<nat>, n: nat, hit: bool)
    requires n !in before && forall i: nat :: i in after <==> i in before || (hit && i == n)
    ensures |after| == |before| + if hit then 1 else 0
  {
    assert after == if hit then before + {n} else before;
  }

  lemma {:induction false} EventsAreSets(test: seq<Event>, a: Assignment, bucket: nat)
    ensures EventsIn(test, a, bucket) == |InBucket(test, a, bucket)|
  {
    if test != [] {
      var rest, n, e := Init(test), |test| - 1, Last(test);
      EventsAreSets(rest, a, bucket);
      var hit := e.packet in a && a[e.packet] == bucket;
      var before, after := InBucket(rest, a, bucket), InBucket(test, a, bucket);
      forall i: nat ensures i in after <==> i in before || (hit && i == n) {
        assert i < n ==> rest[i] == test[i];
      }
      OneMorePosition(before, after, n, hit);
    }
  }

  lemma {:induction false} MissingIsSet(test: seq<Event>, a: Assignment)
    ensures EventsMissing(test, a) == |Missing(test, a)|
  {
    if test != [] {
      var rest, n := Init(test), |test| - 1;
      MissingIsSet(rest, a);
      var hit, before, after := Last(test).packet !in a, Missing(rest, a), Missing(test, a);
      forall i: nat ensures i in after <==> i in before || (hit && i == n) {
        assert i < n ==> rest[i] == test[i];
      }
      OneMorePosition(before, after, n, hit);
    }
  }

  lemma {:induction false} TradesAreSets(xs: seq<Observation>, a: Assignment, horizon: int, bucket: nat)
    ensures TradedIn(xs, a, horizon, bucket) == |Trades(xs, a, horizon, bucket)|
  {
    if xs != [] {
      var rest, n, o := Init(xs), |xs| - 1, Last(xs);
      TradesAreSets(rest, a, horizon, bucket);
      var hit := o.horizon == horizon && o.packet in a && a[o.packet] == bucket && o.outcome.Traded?;
      var before, after := Trades(rest, a, horizon, bucket), Trades(xs, a, horizon, bucket);
      forall i: nat ensures i in after <==> i in before || (hit && i == n) {
        assert i < n ==> rest[i] == xs[i];
      }
      OneMorePosition(before, after, n, hit);
    }
  }

  lemma {:induction false} SkipsAreSets(xs: seq<Observation>, a: Assignment, horizon: int, reason: Reason)
    ensures SkippedFor(xs, a, horizon, reason) == |Skips(xs, a, horizon, reason)|
  {
    if xs != [] {
      var rest, n, o := Init(xs), |xs| - 1, Last(xs);
      SkipsAreSets(rest, a, horizon, reason);
      var hit := o.horizon == horizon && o.packet in a && o.outcome == Skipped(reason);
      var before, after := Skips(rest, a, horizon, reason), Skips(xs, a, horizon, reason);
      forall i: nat ensures i in after <==> i in before || (hit && i == n) {
        assert i < n ==> rest[i] == xs[i];
      }
      OneMorePosition(before, after, n, hit);
    }
  }

  /** What `CountFold` ensures, as sizes. */
  lemma {:induction false} CountersAreSizes(
    c: Counters, test: seq<Event>, xs: seq<Observation>, a: Assignment, horizons: seq<int>, h: int, bucket: nat,
    reason: Reason)
    requires Counts(c, test, xs, a, horizons)
    ensures Get(c.totals, (h, bucket)) == if h in horizons then |InBucket(test, a, bucket)| else 0
    ensures Get(c.traded, (h, bucket)) == |Trades(xs, a, h, bucket)|
    ensures Get(c.skips, (h, reason)) ==
      |Skips(xs, a, h, reason)| + if h in horizons && reason == MissingBucket then |Missing(test, a)| else 0
  {
    EventsAreSets(test, a, bucket);
    MissingIsSet(test, a);
    TradesAreSets(xs, a, h, bucket);
    SkipsAreSets(xs, a, h, reason);
    assert Get(c.totals, (h, bucket)) == if h in horizons then EventsIn(test, a, bucket) else 0;
    assert Get(c.traded, (h, bucket)) == TradedIn(xs, a, h, bucket);
    assert Get(c.skips, (h, reason)) ==
      SkippedFor(xs, a, h, reason) + if h in horizons && reason == MissingBucket then EventsMissing(test, a) else 0;
  }

  // ---- which folds run ----------------------------------------------------------------------------

  /**
   A fold runs exactly when its window holds enough events on both sides and some training event has a
   score; otherwise it is skipped for the first of these that fails.
   */
  lemma {:induction false} FoldRunsExactlyWhen(s: Study, events: seq<Event>, f: Fold)
    requires ValidStudy(s) && Reports(s, events, f)
    ensures var train := Within(events, f.window.trainStart, f.window.trainEnd);
      var test := Within(events, f.window.testStart, f.window.testEnd);
      var scored := exists i :: 0 <= i < |train| && s.score(train, train[i]).Some?;
      && f.trainCount == |train| && f.testCount == |test|
      && (f.Completed? <==> s.minTrain <= |train| && s.minTest <= |test| && scored)
      && (f.Passed? ==>
            f.reason == if |train| < s.minTrain then "insufficient_train_events"
              else if |test| < s.minTest then "insufficient_test_events" else "missing_training_values")
  {
    var train := Within(events, f.window.trainStart, f.window.trainEnd);
    NoValuesExactlyWhen(s, train, train);
  }

  lemma {:induction false} NoValuesExactlyWhen(s: Study, train: seq<Event>, events: seq<Event>)
    ensures Values(s, train, events) != [] <==>
      exists i :: 0 <= i < |events| && s.score(train, events[i]).Some?
  {
    if events != [] {
      NoValuesExactlyWhen(s, train, Init(events));
      assert events[|events| - 1] == Last(events);
      assert forall i :: 0 <= i < |events| - 1 ==> Init(events)[i] == events[i];
    }
  }

  // ---- training values and buckets -------------------------------------------------------------------

  /** The training values are the scores of the training events that have one, in their order. */
  lemma {:induction false} ValuesAreScores(s: Study, train: seq<Event>, a: seq<Event>, e: Event, b: seq<Event>)
    ensures Values(s, train, a + [e] + b) ==
      Values(s, train, a)
      + (match s.score(train, e) { case Some(x) => [x] case None => [] })
      + Values(s, train, b)
    ensures Values(s, train, []) == []
  {
    var xs := a + [e];
    if b == [] {
      assert xs + b == xs && Init(xs) == a && Last(xs) == e;
    } else {
      var shorter := xs + Init(b);
      assert Init(xs + b) == shorter && Last(xs + b) == Last(b);
      ValuesAreScores(s, train, a, e, Init(b));
    }
  }

  /** A packet is placed exactly when some test event of that packet has a score. */
  lemma {:induction false} PlacedExactlyWhen(
    s: Study, train: seq<Event>, test: seq<Event>, edges: seq<real>, packet: string)
    ensures packet in Assign(s, train, test, edges) <==>
      exists i :: 0 <= i < |test| && test[i].packet == packet && s.score(train, test[i]).Some?
  {
    if test != [] {
      var rest, n := Init(test), |test| - 1;
      PlacedExactlyWhen(s, train, rest, edges, packet);
      assert forall i :: 0 <= i < n ==> rest[i] == test[i];
      assert test[n] == Last(test);
    }
  }

  /** The newest scored event of a packet decides: its bucket is one plus the number of edges below its score. */
  lemma {:induction false} BucketOfNewest(
    s: Study, train: seq<Event>, test: seq<Event>, edges: seq<real>, i: nat, x: real)
    requires i < |test| && s.score(train, test[i]) == Some(x) && Nondecreasing(edges)
    requires forall j :: i < j < |test| && test[j].packet == test[i].packet ==> s.score(train, test[j]).None?
    ensures test[i].packet in Assign(s, train, test, edges)
    ensures Assign(s, train, test, edges)[test[i].packet] == 1 + CountBelow(edges, x)
  {
    if i == |test| - 1 {
      BucketCountsEdges(x, edges);
    } else {
      BucketOfNewest(s, train, Init(test), edges, i, x);
    }
  }

  // ---- windows -----------------------------------------------------------------------------------------

  predicate FiledWithin(e: Event, from: int, to: int) {
    from <= e.filedAt / 86_400_000_000 <= to
  }

  lemma {:induction false} WithinNext(events: seq<Event>, from: int, to: int)
    requires events != []
    ensures var rest := Within(Init(events), from, to);
      Within(events, from, to) == if FiledWithin(Last(events), from, to) then rest + [Last(events)] else rest
  {
  }

  lemma {:induction false} WithinCountNext(events: seq<Event>, from: int, to: int, e: Event)
    requires events != []
    ensures multiset(Within(events, from, to))[e] ==
      multiset(Within(Init(events), from, to))[e]
      + if Last(events) == e && FiledWithin(e, from, to) then 1 else 0
  {
    var last := Last(events);
    WithinNext(events, from, to);
    if FiledWithin(last, from, to) {
      Sorting.CountAppends(Within(Init(events), from, to), last, e);
    }
  }

  lemma {:induction false} CountNext(events: seq<Event>, e: Event)
    requires events != []
    ensures multiset(events)[e] == multiset(Init(events))[e] + if Last(events) == e then 1 else 0
  {
    Sorting.CountAppends(Init(events), Last(events), e);
    assert events == Init(events) + [Last(events)];
  }

  /** A window holds the events filed on its days, each as often as it is given. */
  lemma {:induction false} WithinKeepsCounts(events: seq<Event>, from: int, to: int, e: Event)
    ensures multiset(Within(events, from, to))[e] == if FiledWithin(e, from, to) then multiset(events)[e] else 0
  {
    if events != [] {
      WithinKeepsCounts(Init(events), from, to, e);
      WithinCountNext(events, from, to, e);
      CountNext(events, e);
    }
  }

  predicate InFilingOrder(events: seq<Event>) {
    forall i, j :: 0 <= i < j < |events| ==> events[i].filedAt <= events[j].filedAt
  }

  lemma {:induction false} WithinKeepsOrder(events: seq<Event>, from: int, to: int)
    requires InFilingOrder(events)
    ensures InFilingOrder(Within(events, from, to))
  {
    if events != [] {
      var rest := Within(Init(events), from, to);
      WithinKeepsOrder(Init(events), from, to);
      WithinIsExact(Init(events), from, to);
      forall i | 0 <= i < |rest| ensures rest[i].filedAt <= Last(events).filedAt {
        assert rest[i] in Init(events);
      }
    }
  }

  /** The study works on its events in filing order, ties by packet. */
  lemma {:induction false} StudyOrder(events: seq<Event>)
    ensures var sorted := Sorting.Sort(ByFiling(), events);
      && multiset(sorted) == multiset(events)
      && forall i, j :: 0 <= i < j < |sorted| ==>
           || sorted[i].filedAt < sorted[j].filedAt
           || (sorted[i].filedAt == sorted[j].filedAt && Sorting.TextLeq(sorted[i].packet, sorted[j].packet))
  {
    var leq := ByFiling();
    forall a, b ensures leq(a, b) || leq(b, a) {
      Sorting.TextTotal(a.packet, b.packet);
    }
    forall a, b, c | leq(a, b) && leq(b, c) ensures leq(a, c) {
      if a.filedAt == b.filedAt == c.filedAt {
        Sorting.TextTransitive(a.packet, b.packet, c.packet);
      }
    }
    Sorting.SortSorts(leq, events);
    Sorting.SortContents(leq, events);
    var sorted := Sorting.Sort(leq, events);
    forall i, j | 0 <= i < j < |sorted|
      ensures sorted[i].filedAt < sorted[j].filedAt
        || (sorted[i].filedAt == sorted[j].filedAt && Sorting.TextLeq(sorted[i].packet, sorted[j].packet))
    {
      assert leq(sorted[i], sorted[j]);
    }
  }

  /** The event is among the first to be filed. */
  predicate IsEarliest(events: seq<Event>, e: Event) {
    e in events && forall x :: x in events ==> e.filedAt <= x.filedAt
  }

  /**
   Counting days from the first filing, fold `k` tests the `k`-th run of test days after one training
   window and trains on the window before it.
   */
  lemma {:induction false} FoldWindows(s: Study, events: seq<Event>, folds: seq<Fold>, k: nat, e: Event)
    requires ValidStudy(s) && IsEarliest(events, e) && k < |folds|
    requires var sorted := Sorting.Sort(ByFiling(), events); sorted != [] && Covered(s, sorted, folds)
    ensures var start := e.filedAt / 86_400_000_000 + s.trainDays + k * s.testDays;
      folds[k].window == Window(k + 1, start - s.trainDays, start - 1, start, start + s.testDays - 1)
  {
    var sorted := Sorting.Sort(ByFiling(), events);
    SortedEnds(events);
    var first, last := FiledOn(sorted[0]) + s.trainDays, FiledOn(Last(sorted));
    assert IsFold(s, sorted, first, last, k, folds[k]);
  }

  /** Fold `k` exists exactly when a filing is made on or after its first test day. */
  lemma {:induction false} FoldsExistExactly(s: Study, events: seq<Event>, folds: seq<Fold>, k: nat, e: Event)
    requires ValidStudy(s) && IsEarliest(events, e)
    requires var sorted := Sorting.Sort(ByFiling(), events); sorted != [] && Covered(s, sorted, folds)
    ensures k < |folds| <==> exists f ::
      f in events && e.filedAt / 86_400_000_000 + s.trainDays + k * s.testDays <= f.filedAt / 86_400_000_000
  {
    var sorted := Sorting.Sort(ByFiling(), events);
    SortedEnds(events);
    var first, last := FiledOn(sorted[0]) + s.trainDays, FiledOn(Last(sorted));
    if k < |folds| {
      assert IsFold(s, sorted, first, last, k, folds[k]);
      assert Last(sorted) in events;
    } else {
      StartsGrow(first, s.trainDays, s.testDays, |folds|, k);
    }
  }

  /** The sorted events begin with an earliest and end with a latest filing. */
  lemma {:induction false} SortedEnds(events: seq<Event>)
    requires events != []
    ensures var sorted := Sorting.Sort(ByFiling(), events);
      && sorted != [] && sorted[0] in events && Last(sorted) in events
      && (forall e :: IsEarliest(events, e) ==> FiledOn(e) == FiledOn(sorted[0]))
      && (forall e :: e in events ==> FiledOn(e) <= FiledOn(Last(sorted)))
  {
    var sorted := Sorting.Sort(ByFiling(), events);
    StudyOrder(events);
    Sorting.SortMembers(ByFiling(), events);
    Sorting.SortContents(ByFiling(), events);
    assert sorted[0] in sorted && Last(sorted) in sorted;
    FilingsLieBetween(events, sorted);
  }

  lemma {:induction false} FilingsLieBetween(events: seq<Event>, sorted: seq<Event>)
    requires sorted != [] && forall e :: e in sorted <==> e in events
    requires forall i, j :: 0 <= i < j < |sorted| ==> sorted[i].filedAt <= sorted[j].filedAt
    ensures forall e :: e in events ==> sorted[0].filedAt <= e.filedAt <= Last(sorted).filedAt
    ensures forall e :: e in events ==> FiledOn(sorted[0]) <= FiledOn(e) <= FiledOn(Last(sorted))
  {
    forall e | e in events
      ensures sorted[0].filedAt <= e.filedAt <= Last(sorted).filedAt
      ensures FiledOn(sorted[0]) <= FiledOn(e) <= FiledOn(Last(sorted))
    {
      var i :| 0 <= i < |sorted| && sorted[i] == e;
      DayMonotone(sorted[0].filedAt, e.filedAt);
      DayMonotone(e.filedAt, Last(sorted).filedAt);
    }
  }

  lemma {:induction false} StartsGrow(first: int, trainDays: int, testDays: int, i: nat, k: nat)
    requires testDays > 0 && i <= k
    ensures WindowAt(first, trainDays, testDays, i).testStart <= first + k * testDays
  {
    assert i * testDays <= k * testDays;
  }

  // ---- aggregates ----------------------------------------------------------------------------------------

  /** The sum of one counter over the completed folds, from the first fold on. */
  function Total<K>(folds: seq<Fold>, pick: Counters -> map<K, nat>, key: K): nat {
    if folds == [] then 0
    else
      (if folds[0].Completed? then Get(pick(folds[0].counters), key) else 0)
      + Total(folds[1..], pick, key)
  }

  lemma {:induction false} TotalAppends<K>(folds: seq<Fold>, f: Fold, pick: Counters -> map<K, nat>, key: K)
    ensures Total(folds + [f], pick, key) ==
      Total(folds, pick, key) + if f.Completed? then Get(pick(f.counters), key) else 0
  {
    if folds == [] {
      assert folds + [f] == [f];
    } else {
      assert (folds + [f])[1..] == folds[1..] + [f];
      TotalAppends(folds[1..], f, pick, key);
    }
  }

  /** Every aggregate counter is the sum of that counter over the completed folds. */
  lemma {:induction false} AggregatesAreTotals(folds: seq<Fold>, h: int, bucket: nat, reason: Reason)
    ensures var c := Aggregated(folds);
      && Get(c.totals, (h, bucket)) == Total(folds, (c: Counters) => c.totals, (h, bucket))
      && Get(c.traded, (h, bucket)) == Total(folds, (c: Counters) => c.traded, (h, bucket))
      && Get(c.skips, (h, reason)) == Total(folds, (c: Counters) => c.skips, (h, reason))
  {
    if folds != [] {
      var rest, f := Init(folds), Last(folds);
      AggregatesAreTotals(rest, h, bucket, reason);
      assert folds == rest + [f];
      TotalAppends(rest, f, (c: Counters) => c.totals, (h, bucket));
      TotalAppends(rest, f, (c: Counters) => c.traded, (h, bucket));
      TotalAppends(rest, f, (c: Counters) => c.skips, (h, reason));
      if f.Completed? {
        MergeAdds(Aggregated(rest).totals, f.counters.totals, (h, bucket));
        MergeAdds(Aggregated(rest).traded, f.counters.traded, (h, bucket));
        MergeAdds(Aggregated(rest).skips, f.counters.skips, (h, reason));
      }
    }
  }
}
