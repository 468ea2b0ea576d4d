/**
 The append-only daily-bar ledger: observations with revisions, poll receipts with their per-symbol
 cache, and failures.

 Symbols are already normalized, values are finite, and digests are compared as the values they
 name.  A row's sequence number is its position plus one; dates and instants are integers.
 */
module BarFeed {
  import opened LocalTime
  import opened Prelude
  import Sorting

  datatype Value = Value(symbol: string, day: int, open: real, high: real, low: real, close: real, volume: real)

  datatype Observation = Observation(at: int, value: Value)

  datatype Detail = BadBar(day: int, error: string) | Note(text: string)

  datatype Failure = Failure(symbol: string, at: int, category: string, detail: Detail)

  datatype Counts = Counts(returned: int, inRange: int, sourceRejected: int, invalid: int)

  datatype Receipt = Receipt(
    symbol: string, at: int, start: int, through: int, completed: Option<int>, counts: Counts, watermark: nat)

  /** The cached row of one symbol. */
  datatype Poll = Poll(localDate: int, start: int, at: int, completed: Option<int>)

  datatype Store = Store(
    observations: seq<Observation>, receipts: seq<Receipt>, polls: map<string, Poll>, failures: seq<Failure>)

  // ---- observations ------------------------------------------------------------------------------

  function BarError(v: Value): Option<string> {
    if v.open <= 0.0 || v.high <= 0.0 || v.low <= 0.0 || v.close <= 0.0 || v.volume < 0.0 then
      Some("non_positive_price_or_negative_volume")
    else if v.low > v.open || v.low > v.close || v.high < v.open || v.high < v.close then
      Some("inconsistent_ohlc_range")
    else None
  }

  /** Proven complete by date, or strictly before the day of the observation. */
  predicate Complete(v: Value, today: int, through: Option<int>) {
    v.day < today || (through.Some? && v.day <= through.value)
  }

  predicate Stored(xs: seq<Observation>, v: Value) {
    exists i :: 0 <= i < |xs| && xs[i].value == v
  }

  predicate HasPair(xs: seq<Observation>, symbol: string, day: int) {
    exists i :: 0 <= i < |xs| && xs[i].value.symbol == symbol && xs[i].value.day == day
  }

  predicate LaterThan(xs: seq<Observation>, at: int) {
    exists i :: 0 <= i < |xs| && xs[i].at > at
  }

  /** The same failure at the same instant is kept once. */
  function WithFailure(xs: seq<Failure>, f: Failure): seq<Failure> {
    if f in xs then xs else xs + [f]
  }

  function BadBarFailure(v: Value, at: int): Failure
    requires BarError(v).Some?
  {
    Failure(v.symbol, at, "invalid_source_bar", BadBar(v.day, BarError(v).value))
  }

  datatype Tally = Tally(
    observations: seq<Observation>, failures: seq<Failure>, added: nat, revisions: nat, rejected: nat)

  /** One bar inside the transaction; its failure undoes them all. */
  function AppendOne(t: Tally, v: Value, at: int, today: int, through: Option<int>): Result<Tally> {
    if !Complete(v, today, through) then Ok(t)
    else if BarError(v).Some? then
      Ok(t.(failures := WithFailure(t.failures, BadBarFailure(v, at)), rejected := t.rejected + 1))
    else if Stored(t.observations, v) then Ok(t)
    else if LaterThan(t.observations, at) then Rejected("bar observation time cannot move backwards")
    else
      Ok(t.(observations := t.observations + [Observation(at, v)],
            added := t.added + 1,
            revisions := t.revisions + if HasPair(t.observations, v.symbol, v.day) then 1 else 0))
  }

  function AppendAll(t: Tally, vs: seq<Value>, at: int, today: int, through: Option<int>): Result<Tally> {
    if vs == [] then Ok(t)
    else
      match AppendAll(t, Init(vs), at, today, through)
      case Ok(next) => AppendOne(next, Last(vs), at, today, through)
      case Rejected(why) => Rejected(why)
  }

  function BySymbolAndDay(): (Value, Value) -> bool {
    (a: Value, b: Value) => if a.symbol != b.symbol then Sorting.TextLeq(a.symbol, b.symbol) else a.day <= b.day
  }

  /** A batch is worked through by symbol and, within one, by day. */
  lemma {:induction false} BatchIsOrdered(bars: seq<Value>, i: nat, j: nat)
    ensures var sorted := Sorting.Sort(BySymbolAndDay(), bars);
      && multiset(sorted) == multiset(bars)
      && (i < j < |sorted| ==>
            && Sorting.TextLeq(sorted[i].symbol, sorted[j].symbol)
            && (sorted[i].symbol == sorted[j].symbol ==> sorted[i].day <= sorted[j].day))
  {
    var leq, sorted := BySymbolAndDay(), Sorting.Sort(BySymbolAndDay(), bars);
    forall a, b ensures leq(a, b) || leq(b, a) {
      Sorting.TextTotal(a.symbol, b.symbol);
    }
    forall a, b, c | leq(a, b) && leq(b, c) ensures leq(a, c) {
      if a.symbol != b.symbol && b.symbol != c.symbol {
        Sorting.TextTransitive(a.symbol, b.symbol, c.symbol);
        if a.symbol == c.symbol {
          Sorting.TextAntisymmetric(a.symbol, b.symbol);
        }
      }
    }
    Sorting.SortSorts(leq, bars);
    Sorting.SortContents(leq, bars);
    if i < j < |sorted| && sorted[i].symbol == sorted[j].symbol {
      Sorting.TextTotal(sorted[i].symbol, sorted[i].symbol);
    }
  }

  /** The tables after one call, or a refusal that changes nothing. */
  function Appended(s: Store, bars: seq<Value>, at: int, today: int, through: Option<int>): Result<Tally> {
    if through.Some? && through.value > today then Rejected("completed-through date cannot be in the future")
    else AppendAll(Tally(s.observations, s.failures, 0, 0, 0), Sorting.Sort(BySymbolAndDay(), bars), at, today, through)
  }

  /** Values never repeat and clocks never run backwards. */
  predicate Ledger(xs: seq<Observation>) {
    forall i, j :: 0 <= i < j < |xs| ==> xs[i].value != xs[j].value && xs[i].at <= xs[j].at
  }

  function Pairs(xs: seq<Observation>): set<(string, int)> {
    set i | 0 <= i < |xs| :: (xs[i].value.symbol, xs[i].value.day)
  }

  /** What a growing tally keeps: old rows, distinct values, and the count of revisions. */
  predicate Grows(a: Tally, b: Tally) {
    && a.observations <= b.observations
    && |b.observations| - |a.observations| == b.added - a.added
    && b.added - b.revisions - (a.added - a.revisions) == |Pairs(b.observations)| - |Pairs(a.observations)|
    && b.rejected >= a.rejected
  }

  lemma {:induction false} AppendOneGrows(t: Tally, v: Value, at: int, today: int, through: Option<int>)
    requires Ledger(t.observations) && AppendOne(t, v, at, today, through).Ok?
    ensures var next := AppendOne(t, v, at, today, through).value;
      Ledger(next.observations) && Grows(t, next)
  {
    var next := AppendOne(t, v, at, today, through).value;
    if next.observations != t.observations {
      assert Pairs(next.observations) == Pairs(t.observations) + {(v.symbol, v.day)} by {
        assert next.observations[|t.observations|].value == v;
        assert forall i :: 0 <= i < |t.observations| ==> next.observations[i] == t.observations[i];
      }
      assert (v.symbol, v.day) in Pairs(t.observations) <==> HasPair(t.observations, v.symbol, v.day);
    }
  }

  /**
   Each distinct value is stored once, earlier rows never change, and the reported revisions are the
   new observations less the new (symbol, day) pairs.
   */
  lemma {:induction false} AppendAllGrows(t: Tally, vs: seq<Value>, at: int, today: int, through: Option<int>)
    requires Ledger(t.observations) && AppendAll(t, vs, at, today, through).Ok?
    ensures var next := AppendAll(t, vs, at, today, through).value;
      Ledger(next.observations) && Grows(t, next)
  {
    if vs != [] {
      AppendAllGrows(t, Init(vs), at, today, through);
      AppendOneGrows(AppendAll(t, Init(vs), at, today, through).value, Last(vs), at, today, through);
    }
  }

  predicate Acceptable(v: Value, today: int, through: Option<int>) {
    Complete(v, today, through) && BarError(v) == None
  }

  lemma {:induction false} StoredAfter(xs: seq<Observation>, o: Observation, v: Value)
    ensures Stored(xs + [o], v) <==> Stored(xs, v) || o.value == v
  {
    var next := xs + [o];
    assert next[|xs|] == o;
    if Stored(xs, v) {
      var i :| 0 <= i < |xs| && xs[i].value == v;
      assert next[i].value == v;
    }
  }

  lemma {:induction false} AppendOneStores(t: Tally, w: Value, at: int, today: int, through: Option<int>, v: Value)
    requires AppendOne(t, w, at, today, through).Ok?
    ensures Stored(AppendOne(t, w, at, today, through).value.observations, v) <==>
      Stored(t.observations, v) || (v == w && Acceptable(w, today, through))
  {
    StoredAfter(t.observations, Observation(at, w), v);
  }

  /** An accepted batch adds exactly its complete, valid bars to the stored values. */
  lemma {:induction false} AppendAllStores(
    t: Tally, vs: seq<Value>, at: int, today: int, through: Option<int>, v: Value)
    requires AppendAll(t, vs, at, today, through).Ok?
    ensures Stored(AppendAll(t, vs, at, today, through).value.observations, v) <==>
      Stored(t.observations, v) || (v in vs && Acceptable(v, today, through))
  {
    if vs != [] {
      AppendAllStores(t, Init(vs), at, today, through, v);
      AppendOneStores(AppendAll(t, Init(vs), at, today, through).value, Last(vs), at, today, through, v);
      assert vs == Init(vs) + [Last(vs)];
    }
  }

  /** What a batch may store: whole bars of positive, ordered prices, dated before the day or proven complete. */
  lemma {:induction false} AcceptableExactlyWhen(v: Value, today: int, through: Option<int>)
    ensures Acceptable(v, today, through) <==>
      && (v.day < today || (through.Some? && v.day <= through.value))
      && 0.0 < v.low && v.low <= v.open <= v.high && v.low <= v.close <= v.high && v.volume >= 0.0
    ensures BarError(v) == Some("non_positive_price_or_negative_volume") <==>
      v.open <= 0.0 || v.high <= 0.0 || v.low <= 0.0 || v.close <= 0.0 || v.volume < 0.0
  {
  }

  /** The bars of a batch that are complete but not valid. */
  function Invalid(vs: seq<Value>, today: int, through: Option<int>): seq<Value> {
    if vs == [] then []
    else
      Invalid(Init(vs), today, through)
      + if Complete(Last(vs), today, through) && BarError(Last(vs)).Some? then [Last(vs)] else []
  }

  predicate Refuses(f: Failure, v: Value, at: int) {
    BarError(v).Some? && f == Failure(v.symbol, at, "invalid_source_bar", BadBar(v.day, BarError(v).value))
  }

  /** Every complete bar that is not valid is rejected, counted and kept as a failure of its instant. */
  lemma {:induction false} InvalidBarsAreRejected(t: Tally, vs: seq<Value>, at: int, today: int, through: Option<int>)
    requires AppendAll(t, vs, at, today, through).Ok?
    ensures var next, invalid := AppendAll(t, vs, at, today, through).value, Invalid(vs, today, through);
      && next.rejected == t.rejected + |invalid|
      && t.failures <= next.failures
      && (forall v :: v in invalid ==> exists f :: f in next.failures && Refuses(f, v, at))
      && (forall f :: f in next.failures && f !in t.failures ==> exists v :: v in invalid && Refuses(f, v, at))
  {
    if vs != [] {
      InvalidBarsAreRejected(t, Init(vs), at, today, through);
      var next, last := AppendAll(t, Init(vs), at, today, through).value, Last(vs);
      if Complete(last, today, through) && BarError(last).Some? {
        var f := BadBarFailure(last, at);
        assert f in WithFailure(next.failures, f) && Refuses(f, last, at);
        assert last in Invalid(vs, today, through);
      }
    }
  }

  /** A batch is refused exactly when one of its new bars would be dated before a row already stored. */
  lemma {:induction false} BatchRefusedExactlyWhen(t: Tally, vs: seq<Value>, at: int, today: int, through: Option<int>)
    ensures AppendAll(t, vs, at, today, through).Rejected? <==>
      LaterThan(t.observations, at)
      && exists v :: v in vs && Acceptable(v, today, through) && !Stored(t.observations, v)
    ensures AppendAll(t, vs, at, today, through).Ok? ==>
      (LaterThan(AppendAll(t, vs, at, today, through).value.observations, at) <==> LaterThan(t.observations, at))
  {
    if vs != [] {
      BatchRefusedExactlyWhen(t, Init(vs), at, today, through);
      assert vs == Init(vs) + [Last(vs)];
      if AppendAll(t, Init(vs), at, today, through).Ok? {
        var next := AppendAll(t, Init(vs), at, today, through).value;
        forall v ensures Stored(next.observations, v) <==>
          Stored(t.observations, v) || (v in Init(vs) && Acceptable(v, today, through))
        {
          AppendAllStores(t, Init(vs), at, today, through, v);
        }
        LaterAfter(next.observations, Observation(at, Last(vs)), at);
      }
    }
  }

  lemma {:induction false} LaterAfter(xs: seq<Observation>, o: Observation, at: int)
    requires o.at == at
    ensures LaterThan(xs + [o], at) <==> LaterThan(xs, at)
  {
    if LaterThan(xs, at) {
      var i :| 0 <= i < |xs| && xs[i].at > at;
      assert (xs + [o])[i].at > at;
    }
  }

  // ---- a history of appends -------------------------------------------------------------------------

  datatype Batch = Batch(bars: seq<Value>, at: int, today: int, through: Option<int>)

  datatype History = History(observations: seq<Observation>, failures: seq<Failure>, revisions: nat)

  function NoHistory(): History {
    History([], [], 0)
  }

  /** What further batches leave; refused ones leave no trace. */
  function Recorded(start: History, batches: seq<Batch>): History {
    if batches == [] then start
    else
      var h, b := Recorded(start, Init(batches)), Last(batches);
      match Appended(Store(h.observations, [], map[], h.failures), b.bars, b.at, b.today, b.through)
      case Ok(t) => History(t.observations, t.failures, h.revisions + t.revisions)
      case Rejected(_) => h
  }

  /** Batches only add rows, and revisions are the new rows less the new (symbol, day) pairs. */
  lemma {:induction false} RecordedGrows(start: History, batches: seq<Batch>)
    requires Ledger(start.observations)
    ensures var h := Recorded(start, batches);
      && Ledger(h.observations) && start.observations <= h.observations
      && h.revisions - start.revisions ==
         |h.observations| - |Pairs(h.observations)| - (|start.observations| - |Pairs(start.observations)|)
  {
    if batches != [] {
      var h, b := Recorded(start, Init(batches)), Last(batches);
      RecordedGrows(start, Init(batches));
      var s := Store(h.observations, [], map[], h.failures);
      if Appended(s, b.bars, b.at, b.today, b.through).Ok? {
        AppendAllGrows(
          Tally(s.observations, s.failures, 0, 0, 0), Sorting.Sort(BySymbolAndDay(), b.bars), b.at, b.today, b.through);
      }
    }
  }

  /** Over any history the reported revisions are the observations less the distinct (symbol, day) pairs. */
  lemma {:induction false} RevisionsAreCounted(batches: seq<Batch>)
    ensures var h := Recorded(NoHistory(), batches);
      Ledger(h.observations) && h.revisions == |h.observations| - |Pairs(h.observations)|
  {
    RecordedGrows(NoHistory(), batches);
  }

  // ---- first-observed reads ------------------------------------------------------------------------------

  datatype Query = Query(symbol: string, start: Option<int>, through: Option<int>, watermark: Option<nat>)

  predicate InRange(q: Query, v: Value) {
    && v.symbol == q.symbol
    && (q.start.Some? ==> v.day >= q.start.value)
    && (q.through.Some? ==> v.day <= q.through.value)
  }

  /** A row of sequence `n` is the first of its pair, among the rows up to the watermark. */
  function Firsts(xs: seq<Observation>, q: Query): seq<Observation> {
    if xs == [] then []
    else
      var v := Last(xs).value;
      if InRange(q, v) && (q.watermark.Some? ==> |xs| <= q.watermark.value) && !HasPair(Init(xs), v.symbol, v.day)
      then Firsts(Init(xs), q) + [Last(xs)] else Firsts(Init(xs), q)
  }

  function ByDay(): (Observation, Observation) -> bool {
    (a: Observation, b: Observation) => a.value.day <= b.value.day
  }

  function FirstObserved(xs: seq<Observation>, q: Query): seq<Observation> {
    Sorting.Sort(ByDay(), Firsts(xs, q))
  }

  /** An answer is ordered by day, one row for each. */
  lemma {:induction false} ReadIsByDay(xs: seq<Observation>, q: Query, i: nat, j: nat)
    requires i < j < |FirstObserved(xs, q)|
    ensures FirstObserved(xs, q)[i].value.day < FirstObserved(xs, q)[j].value.day
  {
    var firsts, read := Firsts(xs, q), FirstObserved(xs, q);
    Sorting.SortSorts(ByDay(), firsts);
    FirstsAreDistinct(xs, q);
    Sorting.SortContents(ByDay(), firsts);
    if read[i].value.day == read[j].value.day {
      DistinctDaysStay(firsts, read, i, j);
    }
  }

  predicate DistinctDays(xs: seq<Observation>) {
    forall i, j :: 0 <= i < j < |xs| ==> xs[i].value.day != xs[j].value.day
  }

  lemma {:induction false} FirstsAreDistinct(xs: seq<Observation>, q: Query)
    ensures DistinctDays(Firsts(xs, q))
    ensures forall i :: 0 <= i < |Firsts(xs, q)| ==>
      Firsts(xs, q)[i].value.symbol == q.symbol && HasPair(xs, q.symbol, Firsts(xs, q)[i].value.day)
  {
    if xs != [] {
      var before := Firsts(Init(xs), q);
      FirstsAreDistinct(Init(xs), q);
      forall i | 0 <= i < |before| ensures HasPair(xs, q.symbol, before[i].value.day) {
        assert HasPair(Init(xs), q.symbol, before[i].value.day);
        var k :| 0 <= k < |Init(xs)| && Init(xs)[k].value.symbol == q.symbol
          && Init(xs)[k].value.day == before[i].value.day;
        assert xs[k] == Init(xs)[k];
      }
      assert xs[|xs| - 1] == Last(xs);
    }
  }

  /** Two rows of one day in a permutation would be two rows of that day in the original. */
  lemma {:induction false} DistinctDaysStay(xs: seq<Observation>, ys: seq<Observation>, i: nat, j: nat)
    requires DistinctDays(xs) && multiset(xs) == multiset(ys) && i < j < |ys|
    ensures ys[i].value.day != ys[j].value.day
  {
    assert ys[i] in multiset(ys) && ys[j] in multiset(ys);
    assert ys[i] in xs && ys[j] in xs;
    if ys[i] == ys[j] {
      assert ys == ys[..i] + [ys[i]] + ys[i + 1..j] + [ys[j]] + ys[j + 1..];
      assert multiset(ys)[ys[i]] >= 2;
      DistinctOnce(xs, ys[i]);
    }
  }

  lemma {:induction false} DistinctOnce(xs: seq<Observation>, o: Observation)
    requires DistinctDays(xs)
    ensures multiset(xs)[o] <= 1
  {
    if xs != [] {
      DistinctOnce(Init(xs), o);
      assert xs == Init(xs) + [Last(xs)];
      assert o == Last(xs) ==> o !in Init(xs);
    }
  }

  /** A day inside the query's range that no stored row of its symbol has. */
  predicate FreeDay(xs: seq<Observation>, q: Query, day: int) {
    && (q.start.Some? ==> day >= q.start.value)
    && (q.through.Some? ==> day <= q.through.value)
    && !HasPair(xs, q.symbol, day)
  }

  /** No row that could still arrive is visible to the query and the first of its pair. */
  ghost predicate Exhausted(xs: seq<Observation>, q: Query) {
    (q.watermark.Some? && q.watermark.value <= |xs|) || forall day :: !FreeDay(xs, q, day)
  }

  lemma {:induction false} ExhaustedReadStays(xs: seq<Observation>, ys: seq<Observation>, q: Query)
    requires xs <= ys && Exhausted(xs, q)
    ensures FirstObserved(ys, q) == FirstObserved(xs, q)
  {
    if xs != ys {
      var v := Last(ys).value;
      assert xs <= Init(ys);
      ExhaustedReadStays(xs, Init(ys), q);
      if InRange(q, v) && !(q.watermark.Some? && q.watermark.value <= |xs|) {
        assert !FreeDay(xs, q, v.day);
        var i :| 0 <= i < |xs| && xs[i].value.symbol == v.symbol && xs[i].value.day == v.day;
        assert Init(ys)[i] == xs[i];
      }
      assert Firsts(ys, q) == Firsts(Init(ys), q);
    }
  }

  lemma {:induction false} NewPairShows(xs: seq<Observation>, q: Query, o: Observation)
    requires o.value.symbol == q.symbol && FreeDay(xs, q, o.value.day)
    requires !(q.watermark.Some? && q.watermark.value <= |xs|)
    ensures FirstObserved(xs + [o], q) != FirstObserved(xs, q)
  {
    assert Init(xs + [o]) == xs;
    Sorting.SortContents(ByDay(), Firsts(xs, q));
    Sorting.SortContents(ByDay(), Firsts(xs + [o], q));
  }

  /** The day of each batch is the New York day of its observation. */
  predicate Dated(z: Zone, batches: seq<Batch>) {
    forall i :: 0 <= i < |batches| ==> batches[i].today == z.localDay(batches[i].at)
  }

  /** A batch of one flat bar for a free day, observed on a later day and after every stored row. */
  function FreshBatch(z: Zone, xs: seq<Observation>, symbol: string, day: int): Batch {
    var at := if xs == [] then z.at(day + 1, 0) else Max(Last(xs).at, z.at(day + 1, 0));
    Batch([Value(symbol, day, 1.0, 1.0, 1.0, 1.0, 0.0)], at, z.localDay(at), None)
  }

  lemma {:induction false} FreshBatchIsStored(z: Zone, h: History, symbol: string, day: int)
    requires Valid(z) && Ledger(h.observations) && !HasPair(h.observations, symbol, day)
    ensures var b := FreshBatch(z, h.observations, symbol, day);
      Recorded(h, [b]).observations == h.observations + [Observation(b.at, b.bars[0])]
  {
    var b, xs := FreshBatch(z, h.observations, symbol, day), h.observations;
    var v, t := b.bars[0], Tally(xs, h.failures, 0, 0, 0);
    assert z.at(day + 1, 0) <= b.at;
    assert Complete(v, b.today, None) && !Stored(xs, v) && !LaterThan(xs, b.at);
    assert b.bars[1..] == [] && Sorting.Sort(BySymbolAndDay(), b.bars) == [v];
    assert Init([v]) == [] && AppendAll(t, [v], b.at, b.today, None) == AppendOne(t, v, b.at, b.today, None);
    assert Init([b]) == [] && Recorded(h, []) == h;
  }

  /**
   A read gives the same answer after any later batches if and only if its watermark has been reached
   or every day of its range already has a row.
   */
  lemma {:induction false} WatermarkReadIsStable(z: Zone, h: History, q: Query)
    requires Valid(z) && Ledger(h.observations)
    ensures
      (forall batches :: Dated(z, batches) ==>
         FirstObserved(Recorded(h, batches).observations, q) == FirstObserved(h.observations, q))
      <==> Exhausted(h.observations, q)
  {
    var xs := h.observations;
    if Exhausted(xs, q) {
      forall batches | Dated(z, batches)
        ensures FirstObserved(Recorded(h, batches).observations, q) == FirstObserved(xs, q)
      {
        RecordedGrows(h, batches);
        ExhaustedReadStays(xs, Recorded(h, batches).observations, q);
      }
    } else {
      var day :| FreeDay(xs, q, day);
      var b := FreshBatch(z, xs, q.symbol, day);
      FreshBatchIsStored(z, h, q.symbol, day);
      NewPairShows(xs, q, Observation(b.at, b.bars[0]));
      assert Dated(z, [b]);
    }
  }

  /** Row `i` is visible to the query and the earliest of its pair. */
  predicate EarliestAt(xs: seq<Observation>, q: Query, i: int)
    requires 0 <= i < |xs|
  {
    && InRange(q, xs[i].value)
    && (q.watermark.Some? ==> i < q.watermark.value)
    && !HasPair(xs[..i], xs[i].value.symbol, xs[i].value.day)
  }

  /** An answer holds exactly the earliest stored row of each matching pair. */
  lemma {:induction false} FirstsAreEarliest(xs: seq<Observation>, q: Query, o: Observation)
    ensures o in Firsts(xs, q) <==> exists i :: 0 <= i < |xs| && xs[i] == o && EarliestAt(xs, q, i)
  {
    if xs != [] {
      FirstsAreEarliest(Init(xs), q, o);
      assert xs[..|xs| - 1] == Init(xs);
      if o in Firsts(Init(xs), q) {
        var i :| 0 <= i < |Init(xs)| && Init(xs)[i] == o && EarliestAt(Init(xs), q, i);
        assert xs[..i] == Init(xs)[..i];
        assert xs[i] == o && EarliestAt(xs, q, i);
      }
      if exists i :: 0 <= i < |xs| - 1 && xs[i] == o && EarliestAt(xs, q, i) {
        var i :| 0 <= i < |xs| - 1 && xs[i] == o && EarliestAt(xs, q, i);
        assert xs[..i] == Init(xs)[..i];
        assert Init(xs)[i] == o && EarliestAt(Init(xs), q, i);
      }
      assert EarliestAt(xs, q, |xs| - 1) <==> Firsts(xs, q) == Firsts(Init(xs), q) + [Last(xs)];
    }
  }

  lemma {:induction false} PairIsEarlier(xs: seq<Observation>, i: nat, j: nat)
    requires i < j < |xs|
    requires xs[i].value.symbol == xs[j].value.symbol && xs[i].value.day == xs[j].value.day
    ensures HasPair(xs[..j], xs[j].value.symbol, xs[j].value.day)
  {
    assert xs[..j][i] == xs[i];
  }

  /** Without a watermark an answered row is never replaced, whatever revisions follow. */
  lemma {:induction false} FirstValueIsNeverReplaced(
    xs: seq<Observation>, ys: seq<Observation>, q: Query, o: Observation)
    requires xs <= ys && q.watermark == None && o in FirstObserved(xs, q)
    ensures o in FirstObserved(ys, q)
    ensures forall p :: p in FirstObserved(ys, q) && p.value.day == o.value.day ==> p == o
  {
    Sorting.SortMembers(ByDay(), Firsts(xs, q));
    Sorting.SortMembers(ByDay(), Firsts(ys, q));
    FirstsAreEarliest(xs, q, o);
    var i :| 0 <= i < |xs| && xs[i] == o && EarliestAt(xs, q, i);
    assert ys[..i] == xs[..i];
    assert ys[i] == o && EarliestAt(ys, q, i);
    FirstsAreEarliest(ys, q, o);
    forall p | p in FirstObserved(ys, q) && p.value.day == o.value.day ensures p == o {
      FirstsAreEarliest(ys, q, p);
      var j :| 0 <= j < |ys| && ys[j] == p && EarliestAt(ys, q, j);
      if i < j {
        PairIsEarlier(ys, i, j);
      } else if j < i {
        PairIsEarlier(ys, j, i);
      }
    }
  }
}
