/**
 Out-of-sample folds of the event study: train and test windows, per-fold counters, and their
 aggregation.
 */
module Folds {
  import opened Prelude
  import opened ForwardReturns
  import opened Buckets
  import Sorting

  // ---- windows ------------------------------------------------------------------------------------

  datatype Window = Window(index: nat, trainStart: int, trainEnd: int, testStart: int, testEnd: int)

  /** The `k`-th window counts from one; `first` is the first test day. */
  function WindowAt(first: int, trainDays: int, testDays: int, k: nat): Window {
    var start := first + k * testDays;
    Window(k + 1, start - trainDays, start - 1, start, start + testDays - 1)
  }

  /** Test windows follow one another without gap, and training ends the day before testing. */
  lemma {:induction false} WindowsAreConsecutive(first: int, trainDays: int, testDays: int, k: nat)
    ensures var w, next := WindowAt(first, trainDays, testDays, k), WindowAt(first, trainDays, testDays, k + 1);
      next.testStart == w.testEnd + 1 && w.trainEnd + 1 == w.testStart && w.trainEnd - w.trainStart + 1 == trainDays
  {
    assert (k + 1) * testDays == k * testDays + testDays;
  }

  lemma {:induction false} WindowsAreDisjoint(first: int, trainDays: int, testDays: int, i: nat, j: nat, day: int)
    requires testDays > 0 && i < j
    ensures var a, b := WindowAt(first, trainDays, testDays, i), WindowAt(first, trainDays, testDays, j);
      a.testEnd < b.testStart && !(a.testStart <= day <= a.testEnd && b.testStart <= day <= b.testEnd)
    decreases j
  {
    WindowsAreConsecutive(first, trainDays, testDays, j - 1);
    if i < j - 1 {
      WindowsAreDisjoint(first, trainDays, testDays, i, j - 1, day);
    }
  }

  function Within(events: seq<Event>, from: int, to: int): seq<Event> {
    if events == [] then []
    else Within(Init(events), from, to) + if from <= FiledOn(Last(events)) <= to then [Last(events)] else []
  }

  lemma {:induction false} WithinIsExact(events: seq<Event>, from: int, to: int)
    ensures forall e :: e in Within(events, from, to) <==> e in events && from <= FiledOn(e) <= to
  {
    if events != [] {
      WithinIsExact(Init(events), from, to);
      assert events == Init(events) + [Last(events)];
    }
  }

  /** Every training event is filed before every test event of its window. */
  lemma {:induction false} TrainingPrecedesTesting(events: seq<Event>, w: Window, a: Event, b: Event)
    requires w.trainEnd < w.testStart
    requires a in Within(events, w.trainStart, w.trainEnd) && b in Within(events, w.testStart, w.testEnd)
    ensures FiledOn(a) < FiledOn(b) && a.filedAt < b.filedAt
  {
    WithinIsExact(events, w.trainStart, w.trainEnd);
    WithinIsExact(events, w.testStart, w.testEnd);
    if a.filedAt >= b.filedAt {
      DayMonotone(b.filedAt, a.filedAt);
    }
  }

  lemma {:induction false} DayMonotone(a: int, b: int)
    requires a <= b
    ensures a / DAY <= b / DAY
  {
  }

  // ---- counters -------------------------------------------------------------------------------------

  function Get<K>(m: map<K, nat>, key: K): nat {
    if key in m then m[key] else 0
  }

  function Bump<K>(m: map<K, nat>, key: K): map<K, nat> {
    m[key := Get(m, key) + 1]
  }

  function Merge<K>(a: map<K, nat>, b: map<K, nat>): map<K, nat> {
    map key | key in a.Keys + b.Keys :: Get(a, key) + Get(b, key)
  }

  lemma {:induction false} MergeAdds<K>(a: map<K, nat>, b: map<K, nat>, key: K)
    ensures Get(Merge(a, b), key) == Get(a, key) + Get(b, key)
  {
  }

  /** Counts keyed by horizon and bucket, and by horizon and skip reason. */
  datatype Counters = Counters(
    totals: map<(int, nat), nat>, traded: map<(int, nat), nat>, skips: map<(int, Reason), nat>)

  type Assignment = map<string, nat>

  function EventsIn(test: seq<Event>, a: Assignment, bucket: nat): (n: nat)
    ensures n <= |test|
  {
    if test == [] then 0
    else EventsIn(Init(test), a, bucket) + if Last(test).packet in a && a[Last(test).packet] == bucket then 1 else 0
  }

  function EventsMissing(test: seq<Event>, a: Assignment): (n: nat)
    ensures n <= |test|
  {
    if test == [] then 0 else EventsMissing(Init(test), a) + if Last(test).packet in a then 0 else 1
  }

  predicate IsTradedIn(o: Observation, a: Assignment, horizon: int, bucket: nat) {
    o.horizon == horizon && o.packet in a && a[o.packet] == bucket && o.outcome.Traded?
  }

  predicate IsSkippedFor(o: Observation, a: Assignment, horizon: int, reason: Reason) {
    o.horizon == horizon && o.packet in a && o.outcome == Skipped(reason)
  }

  function TradedIn(xs: seq<Observation>, a: Assignment, horizon: int, bucket: nat): nat {
    if xs == [] then 0
    else TradedIn(Init(xs), a, horizon, bucket) + if IsTradedIn(Last(xs), a, horizon, bucket) then 1 else 0
  }

  function SkippedFor(xs: seq<Observation>, a: Assignment, horizon: int, reason: Reason): nat {
    if xs == [] then 0
    else SkippedFor(Init(xs), a, horizon, reason) + if IsSkippedFor(Last(xs), a, horizon, reason) then 1 else 0
  }

  predicate DistinctHorizons(horizons: seq<int>) {
    forall i, j :: 0 <= i < j < |horizons| ==> horizons[i] != horizons[j]
  }

  /** One count for every horizon. */
  method BumpHorizons<T(==)>(m: map<(int, T), nat>, horizons: seq<int>, x: T) returns (r: map<(int, T), nat>)
    requires DistinctHorizons(horizons)
    ensures forall h, y :: Get(r, (h, y)) == Get(m, (h, y)) + if h in horizons && y == x then 1 else 0
  {
    r := m;
    for i := 0 to |horizons|
      invariant forall h, y :: Get(r, (h, y)) == Get(m, (h, y)) + if h in horizons[..i] && y == x then 1 else 0
    {
      assert horizons[..i + 1] == horizons[..i] + [horizons[i]];
      assert horizons[i] !in horizons[..i];
      r := Bump(r, (horizons[i], x));
    }
    assert horizons[..|horizons|] == horizons;
  }

  // What a fold's counters say of its test events and their observations.

  ghost predicate CountsTotals(m: map<(int, nat), nat>, test: seq<Event>, a: Assignment, horizons: seq<int>) {
    forall h, b :: Get(m, (h, b)) == if h in horizons then EventsIn(test, a, b) else 0
  }

  ghost predicate CountsMissing(m: map<(int, Reason), nat>, test: seq<Event>, a: Assignment, horizons: seq<int>) {
    forall h, r :: Get(m, (h, r)) == if h in horizons && r == MissingBucket then EventsMissing(test, a) else 0
  }

  ghost predicate CountsTraded(m: map<(int, nat), nat>, xs: seq<Observation>, a: Assignment) {
    forall h, b :: Get(m, (h, b)) == TradedIn(xs, a, h, b)
  }

  /** `before` holds the counts of events without a bucket. */
  ghost predicate CountsSkips(
    m: map<(int, Reason), nat>, before: map<(int, Reason), nat>, xs: seq<Observation>, a: Assignment)
  {
    forall h, r :: Get(m, (h, r)) == Get(before, (h, r)) + SkippedFor(xs, a, h, r)
  }

  method CountEvents(test: seq<Event>, a: Assignment, horizons: seq<int>)
    returns (totals: map<(int, nat), nat>, skips: map<(int, Reason), nat>)
    requires DistinctHorizons(horizons)
    ensures CountsTotals(totals, test, a, horizons) && CountsMissing(skips, test, a, horizons)
  {
    totals, skips := map[], map[];
    for i := 0 to |test|
      invariant CountsTotals(totals, test[..i], a, horizons) && CountsMissing(skips, test[..i], a, horizons)
    {
      assert Init(test[..i + 1]) == test[..i] && Last(test[..i + 1]) == test[i];
      if test[i].packet !in a {
        skips := BumpHorizons(skips, horizons, MissingBucket);
      } else {
        totals := BumpHorizons(totals, horizons, a[test[i].packet]);
      }
    }
    assert test[..|test|] == test;
  }

  method CountObservations(xs: seq<Observation>, a: Assignment, before: map<(int, Reason), nat>)
    returns (traded: map<(int, nat), nat>, skips: map<(int, Reason), nat>)
    ensures CountsTraded(traded, xs, a) && CountsSkips(skips, before, xs, a)
  {
    traded, skips := map[], before;
    for i := 0 to |xs|
      invariant CountsTraded(traded, xs[..i], a) && CountsSkips(skips, before, xs[..i], a)
    {
      assert Init(xs[..i + 1]) == xs[..i] && Last(xs[..i + 1]) == xs[i];
      if xs[i].packet !in a {
        continue;
      }
      match xs[i].outcome
      case Traded(_) => traded := Bump(traded, (xs[i].horizon, a[xs[i].packet]));
      case Skipped(reason) => skips := Bump(skips, (xs[i].horizon, reason));
    }
    assert xs[..|xs|] == xs;
  }

  ghost predicate Counts(c: Counters, test: seq<Event>, xs: seq<Observation>, a: Assignment, horizons: seq<int>) {
    && CountsTotals(c.totals, test, a, horizons)
    && CountsTraded(c.traded, xs, a)
    && (forall h, r :: Get(c.skips, (h, r)) ==
          SkippedFor(xs, a, h, r) + if h in horizons && r == MissingBucket then EventsMissing(test, a) else 0)
  }

  method CountFold(test: seq<Event>, xs: seq<Observation>, a: Assignment, horizons: seq<int>) returns (c: Counters)
    requires DistinctHorizons(horizons)
    ensures Counts(c, test, xs, a, horizons)
  {
    var totals, missing := CountEvents(test, a, horizons);
    var traded, skips := CountObservations(xs, a, missing);
    c := Counters(totals, traded, skips);
    forall h, r ensures Get(c.skips, (h, r)) ==
      SkippedFor(xs, a, h, r) + if h in horizons && r == MissingBucket then EventsMissing(test, a) else 0
    {
      assert Get(missing, (h, r)) == if h in horizons && r == MissingBucket then EventsMissing(test, a) else 0;
    }
  }

  // ---- the balance of one fold -------------------------------------------------------------------------

  function BucketSum(m: map<(int, nat), nat>, horizon: int, buckets: nat): nat {
    if buckets == 0 then 0 else BucketSum(m, horizon, buckets - 1) + Get(m, (horizon, buckets))
  }

  function SkipSum(m: map<(int, Reason), nat>, h: int): nat {
    Get(m, (h, MissingBars)) + Get(m, (h, MissingEntry)) + Get(m, (h, InvalidEntryPrice)) + Get(m, (h, FailsPrice))
    + Get(m, (h, FailsLiquidity)) + Get(m, (h, MissingExit)) + Get(m, (h, MissingBenchmark))
    + Get(m, (h, MissingBucket))
  }

  predicate BucketsWithin(a: Assignment, buckets: nat) {
    forall packet :: packet in a ==> 1 <= a[packet] <= buckets
  }

  function EventsUpTo(test: seq<Event>, a: Assignment, buckets: nat): nat {
    if test == [] then 0
    else
      EventsUpTo(Init(test), a, buckets)
      + if Last(test).packet in a && 1 <= a[Last(test).packet] <= buckets then 1 else 0
  }

  lemma {:induction false} EventsUpToGrows(test: seq<Event>, a: Assignment, buckets: nat)
    ensures EventsUpTo(test, a, 0) == 0
    ensures EventsUpTo(test, a, buckets + 1) == EventsUpTo(test, a, buckets) + EventsIn(test, a, buckets + 1)
  {
    if test != [] {
      EventsUpToGrows(Init(test), a, buckets);
    }
  }

  lemma {:induction false} EventsUpToAll(test: seq<Event>, a: Assignment, buckets: nat)
    requires BucketsWithin(a, buckets)
    ensures EventsUpTo(test, a, buckets) + EventsMissing(test, a) == |test|
  {
    if test != [] {
      EventsUpToAll(Init(test), a, buckets);
    }
  }

  lemma {:induction false} TotalsSum(
    m: map<(int, nat), nat>, test: seq<Event>, a: Assignment, horizons: seq<int>, h: int, buckets: nat)
    requires CountsTotals(m, test, a, horizons) && h in horizons
    ensures BucketSum(m, h, buckets) == EventsUpTo(test, a, buckets)
  {
    EventsUpToGrows(test, a, if buckets == 0 then 0 else buckets - 1);
    if buckets > 0 {
      TotalsSum(m, test, a, horizons, h, buckets - 1);
    }
  }

  predicate IsTradedUpTo(o: Observation, a: Assignment, h: int, buckets: nat) {
    o.horizon == h && o.packet in a && 1 <= a[o.packet] <= buckets && o.outcome.Traded?
  }

  function TradedUpTo(xs: seq<Observation>, a: Assignment, h: int, buckets: nat): nat {
    if xs == [] then 0 else TradedUpTo(Init(xs), a, h, buckets) + if IsTradedUpTo(Last(xs), a, h, buckets) then 1 else 0
  }

  lemma {:induction false} TradedUpToGrows(xs: seq<Observation>, a: Assignment, h: int, buckets: nat)
    ensures TradedUpTo(xs, a, h, 0) == 0
    ensures TradedUpTo(xs, a, h, buckets + 1) == TradedUpTo(xs, a, h, buckets) + TradedIn(xs, a, h, buckets + 1)
  {
    if xs != [] {
      TradedUpToGrows(Init(xs), a, h, buckets);
    }
  }

  lemma {:induction false} TradedSum(m: map<(int, nat), nat>, xs: seq<Observation>, a: Assignment, h: int, buckets: nat)
    requires CountsTraded(m, xs, a)
    ensures BucketSum(m, h, buckets) == TradedUpTo(xs, a, h, buckets)
  {
    TradedUpToGrows(xs, a, h, if buckets == 0 then 0 else buckets - 1);
    if buckets > 0 {
      TradedSum(m, xs, a, h, buckets - 1);
    }
  }

  /** Observations of one horizon whose packet has a bucket. */
  function Placed(xs: seq<Observation>, a: Assignment, h: int): nat {
    if xs == [] then 0 else Placed(Init(xs), a, h) + if Last(xs).horizon == h && Last(xs).packet in a then 1 else 0
  }

  function SkippedByReason(xs: seq<Observation>, a: Assignment, h: int): nat {
    SkippedFor(xs, a, h, MissingBars) + SkippedFor(xs, a, h, MissingEntry) + SkippedFor(xs, a, h, InvalidEntryPrice)
    + SkippedFor(xs, a, h, FailsPrice) + SkippedFor(xs, a, h, FailsLiquidity) + SkippedFor(xs, a, h, MissingExit)
    + SkippedFor(xs, a, h, MissingBenchmark) + SkippedFor(xs, a, h, MissingBucket)
  }

  function SkippedAny(xs: seq<Observation>, a: Assignment, h: int): nat {
    if xs == [] then 0
    else
      SkippedAny(Init(xs), a, h)
      + if Last(xs).horizon == h && Last(xs).packet in a && Last(xs).outcome.Skipped? then 1 else 0
  }

  /** The reasons cover every skip. */
  lemma {:induction false} ReasonsCoverSkips(xs: seq<Observation>, a: Assignment, h: int)
    ensures SkippedAny(xs, a, h) == SkippedByReason(xs, a, h)
  {
    if xs != [] {
      ReasonsCoverSkips(Init(xs), a, h);
      OneReason(xs, a, h);
    }
  }

  function Flag(b: bool): nat {
    if b then 1 else 0
  }

  function Hit(o: Observation, a: Assignment, h: int, r: Reason): nat {
    Flag(o.horizon == h && o.packet in a && o.outcome == Skipped(r))
  }

  lemma {:induction false} OneMore(xs: seq<Observation>, a: Assignment, h: int, r: Reason)
    requires xs != []
    ensures SkippedFor(xs, a, h, r) == SkippedFor(Init(xs), a, h, r) + Hit(Last(xs), a, h, r)
  {
  }

  lemma {:induction false} HitsOnce(o: Observation, a: Assignment, h: int)
    ensures Hit(o, a, h, MissingBars) + Hit(o, a, h, MissingEntry) + Hit(o, a, h, InvalidEntryPrice)
      + Hit(o, a, h, FailsPrice) + Hit(o, a, h, FailsLiquidity) + Hit(o, a, h, MissingExit)
      + Hit(o, a, h, MissingBenchmark) + Hit(o, a, h, MissingBucket)
      == Flag(o.horizon == h && o.packet in a && o.outcome.Skipped?)
  {
    if o.outcome.Skipped? {
      match o.outcome.reason
      case MissingBars =>
      case MissingEntry =>
      case InvalidEntryPrice =>
      case FailsPrice =>
      case FailsLiquidity =>
      case MissingExit =>
      case MissingBenchmark =>
      case MissingBucket =>
    }
  }

  lemma {:induction false} OneReason(xs: seq<Observation>, a: Assignment, h: int)
    requires xs != []
    ensures SkippedByReason(xs, a, h) == SkippedByReason(Init(xs), a, h)
      + Flag(Last(xs).horizon == h && Last(xs).packet in a && Last(xs).outcome.Skipped?)
  {
    forall r: Reason ensures SkippedFor(xs, a, h, r) == SkippedFor(Init(xs), a, h, r) + Hit(Last(xs), a, h, r) {
      OneMore(xs, a, h, r);
    }
    HitsOnce(Last(xs), a, h);
  }

  lemma {:induction false} PlacedSplits(xs: seq<Observation>, a: Assignment, h: int, buckets: nat)
    requires BucketsWithin(a, buckets)
    ensures Placed(xs, a, h) == TradedUpTo(xs, a, h, buckets) + SkippedAny(xs, a, h)
  {
    if xs != [] {
      PlacedSplits(Init(xs), a, h, buckets);
    }
  }

  lemma {:induction false} PlacedAppend(xs: seq<Observation>, ys: seq<Observation>, a: Assignment, h: int)
    ensures Placed(xs + ys, a, h) == Placed(xs, a, h) + Placed(ys, a, h)
  {
    if ys == [] {
      assert xs + ys == xs;
    } else {
      assert Init(xs + ys) == xs + Init(ys);
      PlacedAppend(xs, Init(ys), a, h);
    }
  }

  lemma {:induction false} OnePerHorizon(m: Market, e: Event, horizons: seq<int>, n: nat, a: Assignment, h: int)
    requires Positive(horizons) && DistinctHorizons(horizons) && n <= |horizons|
    ensures Placed(ObserveAll(m, e, horizons)[..n], a, h) == if h in horizons[..n] && e.packet in a then 1 else 0
  {
    if n > 0 {
      var xs := ObserveAll(m, e, horizons);
      OnePerHorizon(m, e, horizons, n - 1, a, h);
      assert Init(xs[..n]) == xs[..n - 1];
      assert horizons[..n] == horizons[..n - 1] + [horizons[n - 1]];
      assert horizons[n - 1] !in horizons[..n - 1];
    }
  }

  /** Each test event gives one observation per horizon, so every one with a bucket is placed once. */
  lemma {:induction false} ReturnsArePlaced(m: Market, test: seq<Event>, horizons: seq<int>, a: Assignment, h: int)
    requires Positive(horizons) && DistinctHorizons(horizons) && h in horizons
    ensures Placed(Returns(m, test, horizons), a, h) + EventsMissing(test, a) == |test|
  {
    if test != [] {
      var rows := ObserveAll(m, Last(test), horizons);
      ReturnsArePlaced(m, Init(test), horizons, a, h);
      PlacedAppend(Returns(m, Init(test), horizons), rows, a, h);
      OnePerHorizon(m, Last(test), horizons, |horizons|, a, h);
      assert rows[..|horizons|] == rows && horizons[..|horizons|] == horizons;
    }
  }

  /**
   For every horizon the bucket totals with the missing-bucket events, and the executed trades with
   all skip reasons, both add up to the test events.
   */
  lemma {:induction false} FoldBalances(
    m: Market, c: Counters, test: seq<Event>, a: Assignment, horizons: seq<int>, h: int, buckets: nat)
    requires Positive(horizons) && DistinctHorizons(horizons) && h in horizons && BucketsWithin(a, buckets)
    requires Counts(c, test, Returns(m, test, horizons), a, horizons)
    ensures BucketSum(c.totals, h, buckets) + EventsMissing(test, a) == |test|
    ensures BucketSum(c.traded, h, buckets) + SkipSum(c.skips, h) == |test|
  {
    var xs := Returns(m, test, horizons);
    TotalsSum(c.totals, test, a, horizons, h, buckets);
    EventsUpToAll(test, a, buckets);
    TradedSum(c.traded, xs, a, h, buckets);
    PlacedSplits(xs, a, h, buckets);
    ReasonsCoverSkips(xs, a, h);
    ReturnsArePlaced(m, test, horizons, a, h);
  }

  // ---- one fold ----------------------------------------------------------------------------------------

  /** `score` may depend on the training events; it has no value where a feature is missing. */
  datatype Study = Study(
    market: Market, horizons: seq<int>, buckets: int, trainDays: int, testDays: int, minTrain: int, minTest: int,
    score: (seq<Event>, Event) -> Option<real>)

  datatype Fold =
    | Completed(window: Window, trainCount: nat, testCount: nat, edges: seq<real>, counters: Counters)
    | Passed(window: Window, trainCount: nat, testCount: nat, reason: string)

  function Values(s: Study, train: seq<Event>, events: seq<Event>): seq<real> {
    if events == [] then []
    else
      Values(s, train, Init(events))
      + match s.score(train, Last(events)) case Some(x) => [x] case None => []
  }

  function Assign(s: Study, train: seq<Event>, test: seq<Event>, edges: seq<real>): Assignment {
    if test == [] then map[]
    else
      match s.score(train, Last(test))
      case Some(x) => Assign(s, train, Init(test), edges)[Last(test).packet := BucketOf(x, edges)]
      case None => Assign(s, train, Init(test), edges)
  }

  lemma {:induction false} AssignWithin(s: Study, train: seq<Event>, test: seq<Event>, edges: seq<real>)
    ensures BucketsWithin(Assign(s, train, test, edges), |edges| + 1)
  {
    if test != [] {
      AssignWithin(s, train, Init(test), edges);
    }
  }

  lemma {:induction false} ReturnsNeverMissBuckets(
    m: Market, test: seq<Event>, horizons: seq<int>, a: Assignment, h: int)
    requires Positive(horizons)
    ensures SkippedFor(Returns(m, test, horizons), a, h, MissingBucket) == 0
  {
    if test != [] {
      ReturnsNeverMissBuckets(m, Init(test), horizons, a, h);
      RowsNeverMissBuckets(m, Returns(m, Init(test), horizons), Last(test), horizons, |horizons|, a, h);
      var rows := ObserveAll(m, Last(test), horizons);
      assert rows[..|horizons|] == rows;
    }
  }

  lemma {:induction false} RowsNeverMissBuckets(
    m: Market, before: seq<Observation>, e: Event, horizons: seq<int>, n: nat, a: Assignment, h: int)
    requires Positive(horizons) && n <= |horizons| && SkippedFor(before, a, h, MissingBucket) == 0
    ensures SkippedFor(before + ObserveAll(m, e, horizons)[..n], a, h, MissingBucket) == 0
  {
    var rows := ObserveAll(m, e, horizons);
    if n == 0 {
      assert before + rows[..0] == before;
    } else {
      RowsNeverMissBuckets(m, before, e, horizons, n - 1, a, h);
      assert Init(before + rows[..n]) == before + rows[..n - 1];
      NeverMissingBucket(m, e, horizons[n - 1]);
    }
  }

  lemma {:induction false} NeverMissingBucket(m: Market, e: Event, horizon: int)
    requires horizon > 0
    ensures Observe(m, e, horizon).outcome != Skipped(MissingBucket)
  {
  }

  /** The counters of a fold account for every test event, twice over, at every horizon. */
  predicate Balanced(c: Counters, horizons: seq<int>, buckets: nat, tests: nat) {
    forall i :: 0 <= i < |horizons| ==>
      && BucketSum(c.totals, horizons[i], buckets) + Get(c.skips, (horizons[i], MissingBucket)) == tests
      && BucketSum(c.traded, horizons[i], buckets) + SkipSum(c.skips, horizons[i]) == tests
  }

  predicate ValidStudy(s: Study) {
    s.buckets >= 2 && s.trainDays > 0 && s.testDays > 0 && Positive(s.horizons) && DistinctHorizons(s.horizons)
  }

  /** Why a window's fold is skipped, if it is. */
  function SkipReason(s: Study, train: seq<Event>, test: seq<Event>): Option<string> {
    if |train| < s.minTrain then Some("insufficient_train_events")
    else if |test| < s.minTest then Some("insufficient_test_events")
    else if Values(s, train, train) == [] then Some("missing_training_values")
    else None
  }

  /** The edges are quantiles of the training values. */
  predicate TrainedEdges(s: Study, values: seq<real>, edges: seq<real>)
    requires values != []
  {
    var sorted := Sorting.Sort(Ascending(), values);
    && sorted != []
    && |edges| == s.buckets - 1 && Nondecreasing(edges)
    && forall i :: 0 <= i < |edges| ==> edges[i] == Quantile(sorted, (i + 1) as real / s.buckets as real)
  }

  /**
   What one fold reports: it is skipped exactly for the stated reason; otherwise its edges come from
   the training values, and its counters count the test events and their returns, and balance.
   */
  ghost predicate Reports(s: Study, events: seq<Event>, f: Fold)
    requires ValidStudy(s)
  {
    var train := Within(events, f.window.trainStart, f.window.trainEnd);
    var test := Within(events, f.window.testStart, f.window.testEnd);
    && f.trainCount == |train| && f.testCount == |test|
    && match SkipReason(s, train, test)
       case Some(reason) => f.Passed? && f.reason == reason
       case None =>
         && f.Completed?
         && TrainedEdges(s, Values(s, train, train), f.edges)
         && Counts(f.counters, test, Returns(s.market, test, s.horizons), Assign(s, train, test, f.edges), s.horizons)
         && Balanced(f.counters, s.horizons, s.buckets, f.testCount)
  }

  method RunFold(s: Study, events: seq<Event>, w: Window) returns (f: Fold)
    requires ValidStudy(s)
    ensures f.window == w && Reports(s, events, f)
  {
    var train, test := Within(events, w.trainStart, w.trainEnd), Within(events, w.testStart, w.testEnd);
    if |train| < s.minTrain {
      return Passed(w, |train|, |test|, "insufficient_train_events");
    }
    if |test| < s.minTest {
      return Passed(w, |train|, |test|, "insufficient_test_events");
    }
    var values := Values(s, train, train);
    if values == [] {
      return Passed(w, |train|, |test|, "missing_training_values");
    }
    var edges := ScoreBucketEdges(values, s.buckets);
    var a := Assign(s, train, test, edges.value);
    AssignWithin(s, train, test, edges.value);
    var observations := ComputeForwardReturns(s.market, test, s.horizons);
    var counters := CountFold(test, observations, a, s.horizons);
    CountedIsBalanced(s, counters, test, a);
    return Completed(w, |train|, |test|, edges.value, counters);
  }

  lemma {:induction false} CountedIsBalanced(s: Study, c: Counters, test: seq<Event>, a: Assignment)
    requires ValidStudy(s) && BucketsWithin(a, s.buckets)
    requires Counts(c, test, Returns(s.market, test, s.horizons), a, s.horizons)
    ensures Balanced(c, s.horizons, s.buckets, |test|)
  {
    forall i | 0 <= i < |s.horizons|
      ensures BucketSum(c.totals, s.horizons[i], s.buckets) + Get(c.skips, (s.horizons[i], MissingBucket)) == |test|
      ensures BucketSum(c.traded, s.horizons[i], s.buckets) + SkipSum(c.skips, s.horizons[i]) == |test|
    {
      FoldBalances(s.market, c, test, a, s.horizons, s.horizons[i], s.buckets);
      ReturnsNeverMissBuckets(s.market, test, s.horizons, a, s.horizons[i]);
      assert Get(c.skips, (s.horizons[i], MissingBucket)) == EventsMissing(test, a);
    }
  }

  // ---- the whole study --------------------------------------------------------------------------------------

  function NoCounters(): Counters {
    Counters(map[], map[], map[])
  }

  function MergeCounters(a: Counters, b: Counters): Counters {
    Counters(Merge(a.totals, b.totals), Merge(a.traded, b.traded), Merge(a.skips, b.skips))
  }

  function Aggregated(folds: seq<Fold>): Counters {
    if folds == [] then NoCounters()
    else if Last(folds).Passed? then Aggregated(Init(folds))
    else MergeCounters(Aggregated(Init(folds)), Last(folds).counters)
  }

  function TestedEvents(folds: seq<Fold>): nat {
    if folds == [] then 0 else TestedEvents(Init(folds)) + if Last(folds).Completed? then Last(folds).testCount else 0
  }

  lemma {:induction false} BucketSumMerges(a: map<(int, nat), nat>, b: map<(int, nat), nat>, h: int, buckets: nat)
    ensures BucketSum(Merge(a, b), h, buckets) == BucketSum(a, h, buckets) + BucketSum(b, h, buckets)
  {
    if buckets > 0 {
      BucketSumMerges(a, b, h, buckets - 1);
      MergeAdds(a, b, (h, buckets));
    }
  }

  lemma {:induction false} SkipSumMerges(a: map<(int, Reason), nat>, b: map<(int, Reason), nat>, h: int)
    ensures SkipSum(Merge(a, b), h) == SkipSum(a, h) + SkipSum(b, h)
  {
    forall r: Reason ensures Get(Merge(a, b), (h, r)) == Get(a, (h, r)) + Get(b, (h, r)) {
      MergeAdds(a, b, (h, r));
    }
  }

  lemma {:induction false} NoCountersSum(h: int, buckets: nat)
    ensures BucketSum(map[], h, buckets) == 0
  {
    if buckets > 0 {
      NoCountersSum(h, buckets - 1);
    }
  }

  lemma {:induction false} MergedIsBalanced(a: Counters, b: Counters, horizons: seq<int>, buckets: nat, m: nat, n: nat)
    requires Balanced(a, horizons, buckets, m) && Balanced(b, horizons, buckets, n)
    ensures Balanced(MergeCounters(a, b), horizons, buckets, m + n)
  {
    forall i | 0 <= i < |horizons|
      ensures var c, h := MergeCounters(a, b), horizons[i];
        && BucketSum(c.totals, h, buckets) + Get(c.skips, (h, MissingBucket)) == m + n
        && BucketSum(c.traded, h, buckets) + SkipSum(c.skips, h) == m + n
    {
      BucketSumMerges(a.totals, b.totals, horizons[i], buckets);
      BucketSumMerges(a.traded, b.traded, horizons[i], buckets);
      MergeAdds(a.skips, b.skips, (horizons[i], MissingBucket));
      SkipSumMerges(a.skips, b.skips, horizons[i]);
    }
  }

  /** The aggregates are the sums over completed folds and balance against all their test events. */
  lemma {:induction false} AggregateBalances(s: Study, events: seq<Event>, folds: seq<Fold>)
    requires ValidStudy(s) && forall k :: 0 <= k < |folds| ==> Reports(s, events, folds[k])
    ensures Balanced(Aggregated(folds), s.horizons, s.buckets, TestedEvents(folds))
  {
    if folds == [] {
      forall i | 0 <= i < |s.horizons| ensures BucketSum(map[], s.horizons[i], s.buckets) == 0 {
        NoCountersSum(s.horizons[i], s.buckets);
      }
    } else {
      assert forall k :: 0 <= k < |folds| - 1 ==> Init(folds)[k] == folds[k];
      AggregateBalances(s, events, Init(folds));
      assert Reports(s, events, folds[|folds| - 1]);
      if Last(folds).Completed? {
        MergedIsBalanced(
          Aggregated(Init(folds)), Last(folds).counters, s.horizons, s.buckets, TestedEvents(Init(folds)),
          Last(folds).testCount);
      }
    }
  }

  /** Sorting distinct horizons leaves them distinct, so they increase strictly. */
  lemma {:induction false} SortedIncrease(xs: seq<int>)
    requires DistinctHorizons(xs)
    ensures var sorted := Sorting.Sort(Sorting.Earlier(), xs);
      && (forall h :: h in sorted <==> h in xs)
      && (forall i, j :: 0 <= i < j < |sorted| ==> sorted[i] < sorted[j])
  {
    var sorted := Sorting.Sort(Sorting.Earlier(), xs);
    Sorting.SortSorts(Sorting.Earlier(), xs);
    Sorting.SortMembers(Sorting.Earlier(), xs);
    Sorting.SortContents(Sorting.Earlier(), xs);
    DistinctSizes(xs);
    assert (set h | h in sorted) == (set h | h in xs);
    SizeDistinct(sorted);
  }

  lemma {:induction false} DistinctSizes(xs: seq<int>)
    requires DistinctHorizons(xs)
    ensures |set h | h in xs| == |xs|
  {
    if xs != [] {
      DistinctSizes(Init(xs));
      assert xs == Init(xs) + [Last(xs)];
      assert (set h | h in xs) == (set h | h in Init(xs)) + {Last(xs)};
    }
  }

  lemma {:induction false} SizeAtMost(xs: seq<int>)
    ensures |set h | h in xs| <= |xs|
  {
    if xs != [] {
      SizeAtMost(Init(xs));
      assert xs == Init(xs) + [Last(xs)];
      assert (set h | h in xs) == (set h | h in Init(xs)) + {Last(xs)};
    }
  }

  lemma {:induction false} SizeDistinct(xs: seq<int>)
    requires |set h | h in xs| == |xs|
    ensures DistinctHorizons(xs)
  {
    if xs != [] {
      var rest := Init(xs);
      assert xs == rest + [Last(xs)];
      assert (set h | h in xs) == (set h | h in rest) + {Last(xs)};
      SizeAtMost(rest);
      assert Last(xs) in rest ==> (set h | h in xs) == (set h | h in rest);
      SizeDistinct(rest);
    }
  }

  /** Positive, without repeats and ascending. */
  method IterHorizons(horizons: seq<int>) returns (r: Result<seq<int>>)
    ensures r.Rejected? <==> horizons == [] || exists i :: 0 <= i < |horizons| && horizons[i] <= 0
    ensures r.Ok? ==> Positive(r.value) && forall h :: h in r.value <==> h in horizons
    ensures r.Ok? ==> forall i, j :: 0 <= i < j < |r.value| ==> r.value[i] < r.value[j]
  {
    var deduped: seq<int> := [];
    for i := 0 to |horizons|
      invariant Positive(deduped) && DistinctHorizons(deduped)
      invariant forall h :: h in deduped <==> h in horizons[..i]
      invariant forall k :: 0 <= k < i ==> horizons[k] > 0
    {
      assert horizons[..i + 1] == horizons[..i] + [horizons[i]];
      if horizons[i] <= 0 {
        return Rejected("invalid horizon");
      }
      if horizons[i] !in deduped {
        deduped := deduped + [horizons[i]];
      }
    }
    assert horizons[..|horizons|] == horizons;
    if horizons != [] {
      assert horizons[0] in deduped;
    }
    if deduped == [] {
      return Rejected("horizons cannot be empty");
    }
    assert deduped[0] in horizons;
    SortedIncrease(deduped);
    var sorted := Sorting.Sort(Sorting.Earlier(), deduped);
    forall i | 0 <= i < |sorted| ensures sorted[i] > 0 {
      assert sorted[i] in sorted;
    }
    return Ok(sorted);
  }

  function ByFiling(): (Event, Event) -> bool {
    (a: Event, b: Event) =>
      if a.filedAt != b.filedAt then a.filedAt < b.filedAt else Sorting.TextLeq(a.packet, b.packet)
  }

  /** The fold of window `k`, which starts by the last filing. */
  ghost predicate IsFold(s: Study, events: seq<Event>, first: int, last: int, k: nat, f: Fold)
    requires ValidStudy(s)
  {
    Reports(s, events, f) && f.window == WindowAt(first, s.trainDays, s.testDays, k) && f.window.testStart <= last
  }

  ghost predicate AreFolds(s: Study, events: seq<Event>, first: int, last: int, folds: seq<Fold>)
    requires ValidStudy(s)
  {
    forall k :: 0 <= k < |folds| ==> IsFold(s, events, first, last, k, folds[k])
  }

  lemma {:induction false} FoldsBalance(s: Study, events: seq<Event>, first: int, last: int, folds: seq<Fold>)
    requires ValidStudy(s) && AreFolds(s, events, first, last, folds)
    ensures Balanced(Aggregated(folds), s.horizons, s.buckets, TestedEvents(folds))
  {
    forall k | 0 <= k < |folds| ensures Reports(s, events, folds[k]) {
      assert IsFold(s, events, first, last, k, folds[k]);
    }
    AggregateBalances(s, events, folds);
  }

  /** One fold after another from the first test day on, while one starts by the last filing. */
  method FoldsFrom(s: Study, events: seq<Event>, first: int, last: int) returns (folds: seq<Fold>, aggregate: Counters)
    requires ValidStudy(s)
    ensures aggregate == Aggregated(folds)
    ensures AreFolds(s, events, first, last, folds)
    ensures WindowAt(first, s.trainDays, s.testDays, |folds|).testStart > last
  {
    folds, aggregate := [], NoCounters();
    var foldStart := first;
    while foldStart <= last
      invariant foldStart == WindowAt(first, s.trainDays, s.testDays, |folds|).testStart
      invariant aggregate == Aggregated(folds)
      invariant AreFolds(s, events, first, last, folds)
      decreases last - foldStart
    {
      var w := WindowAt(first, s.trainDays, s.testDays, |folds|);
      var f := RunFold(s, events, w);
      WindowsAreConsecutive(first, s.trainDays, s.testDays, |folds|);
      assert Init(folds + [f]) == folds && Last(folds + [f]) == f;
      if f.Completed? {
        aggregate := MergeCounters(aggregate, f.counters);
      }
      folds := folds + [f];
      foldStart := w.testEnd + 1;
    }
  }

  /** The folds start one training window after the first filing and cover every filing after that. */
  ghost predicate Covered(s: Study, sorted: seq<Event>, folds: seq<Fold>)
    requires ValidStudy(s) && sorted != []
  {
    var first, last := FiledOn(sorted[0]) + s.trainDays, FiledOn(Last(sorted));
    && AreFolds(s, sorted, first, last, folds)
    && WindowAt(first, s.trainDays, s.testDays, |folds|).testStart > last
  }

  method RunSorted(s: Study, sorted: seq<Event>) returns (folds: seq<Fold>, aggregate: Counters)
    requires ValidStudy(s) && sorted != []
    ensures aggregate == Aggregated(folds) && Covered(s, sorted, folds)
    ensures Balanced(aggregate, s.horizons, s.buckets, TestedEvents(folds))
  {
    var first, last := FiledOn(sorted[0]) + s.trainDays, FiledOn(Last(sorted));
    folds, aggregate := FoldsFrom(s, sorted, first, last);
    FoldsBalance(s, sorted, first, last, folds);
  }

  /** Every fold of the events in filing order, and the aggregates that balance against all of them. */
  method RunStudy(s: Study, events: seq<Event>) returns (folds: seq<Fold>, aggregate: Counters)
    requires ValidStudy(s)
    ensures aggregate == Aggregated(folds)
    ensures Balanced(aggregate, s.horizons, s.buckets, TestedEvents(folds))
    ensures events == [] ==> folds == []
    ensures events != [] ==>
      var sorted := Sorting.Sort(ByFiling(), events);
      sorted != [] && Covered(s, sorted, folds)
  {
    var sorted := Sorting.Sort(ByFiling(), events);
    Sorting.SortContents(ByFiling(), events);
    if events == [] {
      folds, aggregate := [], NoCounters();
      FoldsBalance(s, events, 0, 0, folds);
    } else {
      folds, aggregate := RunSorted(s, sorted);
    }
  }
}
