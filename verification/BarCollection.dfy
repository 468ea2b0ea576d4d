/**
 Collection cycles of the bar feed: the least-recently-attempted order and its fairness.
 */
module BarCollection {
  import opened Prelude
  import opened LocalTime
  import opened BarFeed
  import opened BarPolls
  import Sorting

  // ---- attempts -----------------------------------------------------------------------------------

  function LastFailure(xs: seq<Failure>, symbol: string): Option<int> {
    if xs == [] then None
    else if Last(xs).symbol == symbol then LaterOption(LastFailure(Init(xs), symbol), Some(Last(xs).at))
    else LastFailure(Init(xs), symbol)
  }

  function LastAttempt(s: Store, symbol: string): Option<int> {
    LaterOption(LastFailure(s.failures, symbol), if symbol in s.polls then Some(s.polls[symbol].at) else None)
  }

  predicate NotAfter(a: Option<int>, b: Option<int>) {
    a == None || (b.Some? && a.value <= b.value)
  }

  /** Never attempted first, then least recently attempted, then by name. */
  predicate Goes(s: Store, a: string, b: string) {
    if LastAttempt(s, a) != LastAttempt(s, b) then NotAfter(LastAttempt(s, a), LastAttempt(s, b))
    else Sorting.TextLeq(a, b)
  }

  function Turn(s: Store): (string, string) -> bool {
    (a: string, b: string) => Goes(s, a, b)
  }

  lemma {:induction false} TurnIsTotal(s: Store)
    ensures Sorting.TotalPreorder(Turn(s))
  {
    var leq := Turn(s);
    forall a, b ensures leq(a, b) || leq(b, a) {
      Sorting.TextTotal(a, b);
    }
    forall a, b, c | leq(a, b) && leq(b, c) ensures leq(a, c) {
      if Sorting.TextLeq(a, b) && Sorting.TextLeq(b, c) {
        Sorting.TextTransitive(a, b, c);
      }
    }
  }

  function Unique(xs: seq<string>): seq<string> {
    if xs == [] then [] else if Last(xs) in Init(xs) then Unique(Init(xs)) else Unique(Init(xs)) + [Last(xs)]
  }

  function FairOrder(s: Store, symbols: seq<string>): seq<string> {
    Sorting.Sort(Turn(s), Unique(symbols))
  }

  /** The symbols one cycle attempts. */
  function Chosen(s: Store, symbols: seq<string>, cap: nat): seq<string> {
    var ordered := FairOrder(s, symbols);
    if |ordered| <= cap then ordered else ordered[..cap]
  }

  lemma {:induction false} UniqueKeeps(xs: seq<string>)
    ensures forall x :: x in Unique(xs) <==> x in xs
    ensures forall i, j :: 0 <= i < j < |Unique(xs)| ==> Unique(xs)[i] != Unique(xs)[j]
  {
    if xs != [] {
      UniqueKeeps(Init(xs));
      assert xs == Init(xs) + [Last(xs)];
    }
  }

  lemma {:induction false} ChosenHas(s: Store, symbols: seq<string>, cap: nat, k: nat)
    requires k < |FairOrder(s, symbols)| && k < cap
    ensures FairOrder(s, symbols)[k] in Chosen(s, symbols, cap)
  {
    assert Chosen(s, symbols, cap)[k] == FairOrder(s, symbols)[k];
  }

  /** Whoever is passed over was preceded by a full cycle of other symbols. */
  lemma {:induction false} PassedOver(s: Store, symbols: seq<string>, cap: nat, x: string)
    requires x in symbols && x !in Chosen(s, symbols, cap)
    ensures var chosen := Chosen(s, symbols, cap);
      && |chosen| == cap
      && (forall i, j :: 0 <= i < j < |chosen| ==> chosen[i] != chosen[j])
      && (forall i :: 0 <= i < |chosen| ==> chosen[i] in symbols && chosen[i] != x && Goes(s, chosen[i], x))
  {
    var ordered, unique := FairOrder(s, symbols), Unique(symbols);
    UniqueKeeps(symbols);
    TurnIsTotal(s);
    Sorting.SortSorts(Turn(s), unique);
    Sorting.SortMembers(Turn(s), unique);
    Sorting.SortContents(Turn(s), unique);
    SameContentsDistinct(unique, ordered);
    assert x in ordered;
    var k :| 0 <= k < |ordered| && ordered[k] == x;
    forall i: nat | i < |ordered| && i < cap ensures ordered[i] != x {
      ChosenHas(s, symbols, cap, i);
    }
    forall i | 0 <= i < cap ensures ordered[i] in symbols && ordered[i] != x && Goes(s, ordered[i], x) {
      assert Turn(s)(ordered[i], ordered[k]);
      assert ordered[i] in ordered;
    }
  }

  lemma {:induction false} SameContentsDistinct(xs: seq<string>, ys: seq<string>)
    requires multiset(xs) == multiset(ys) && forall i, j :: 0 <= i < j < |xs| ==> xs[i] != xs[j]
    ensures forall i, j :: 0 <= i < j < |ys| ==> ys[i] != ys[j]
  {
    forall i, j | 0 <= i < j < |ys| ensures ys[i] != ys[j] {
      if ys[i] == ys[j] {
        TwiceCounted(ys, i, j);
        OnceCounted(xs, ys[i]);
      }
    }
  }

  lemma {:induction false} TwiceCounted(ys: seq<string>, i: nat, j: nat)
    requires i < j < |ys| && ys[i] == ys[j]
    ensures multiset(ys)[ys[i]] >= 2
  {
    assert ys == ys[..i] + [ys[i]] + ys[i + 1..j] + [ys[j]] + ys[j + 1..];
  }

  lemma {:induction false} OnceCounted(xs: seq<string>, x: string)
    requires forall i, j :: 0 <= i < j < |xs| ==> xs[i] != xs[j]
    ensures multiset(xs)[x] <= 1
  {
    if xs != [] {
      OnceCounted(Init(xs), x);
      assert xs == Init(xs) + [Last(xs)];
      if Last(xs) == x {
        assert x !in Init(xs);
        assert x !in multiset(Init(xs));
      }
    }
  }

  // ---- one cycle -----------------------------------------------------------------------------------------

  /** `reset` marks a timeout or a lost session, after which the source is connected again. */
  datatype Fetch = Fetched(bars: seq<Value>, rejections: seq<string>) | Raised(message: string, reset: bool)

  /** What the source answers in one cycle; `reconnects` answers the connection after a reset. */
  datatype Cycle = Cycle(
    now: int, completed: Option<int>, cap: nat, fetch: string -> Fetch, connects: bool, reconnects: string -> bool)

  function WithRejections(xs: seq<Failure>, symbol: string, now: int, rejections: seq<string>): seq<Failure> {
    if rejections == [] then xs
    else
      WithFailure(WithRejections(xs, symbol, now, Init(rejections)),
                  Failure(symbol, now, "source_bar_rejected", Note(Last(rejections))))
  }

  function WithCollectionFailure(s: Store, symbol: string, now: int, message: string): Store {
    s.(failures := WithFailure(s.failures, Failure(symbol, now, "symbol_collection_failed", Note(message))))
  }

  function Between(bars: seq<Value>, start: int, through: int): seq<Value> {
    if bars == [] then []
    else Between(Init(bars), start, through) + if start <= Last(bars).day <= through then [Last(bars)] else []
  }

  predicate AllOf(bars: seq<Value>, symbol: string) {
    forall i :: 0 <= i < |bars| ==> bars[i].symbol == symbol
  }

  /** The store after one symbol has been attempted; every exception becomes a failure row. */
  function Attempted(s: Store, z: Zone, c: Cycle, symbol: string, start: int, through: int): Store {
    match c.fetch(symbol)
    case Raised(message, _) => WithCollectionFailure(s, symbol, c.now, message)
    case Fetched(bars, rejections) =>
      var noted := s.(failures := WithRejections(s.failures, symbol, c.now, rejections));
      if !AllOf(bars, symbol) then
        WithCollectionFailure(noted, symbol, c.now, "historical source returned a bar for the wrong symbol")
      else Filed(noted, z, c, symbol, start, through, bars, |rejections|)
  }

  /** Stores the bars in range and then the poll receipt about them. */
  function Filed(
    s: Store, z: Zone, c: Cycle, symbol: string, start: int, through: int, bars: seq<Value>, sourceRejected: nat): Store
  {
    var inRange := Between(bars, start, through);
    match Appended(s, inRange, c.now, z.localDay(c.now), c.completed)
    case Rejected(why) => WithCollectionFailure(s, symbol, c.now, why)
    case Ok(t) =>
      var stored := s.(observations := t.observations, failures := t.failures);
      match RecordPoll(stored, z, symbol, z.localDay(c.now), start, through, c.completed, c.now,
                       Counts(|bars|, |inRange|, sourceRejected, t.rejected))
      case Rejected(why) => WithCollectionFailure(stored, symbol, c.now, why)
      case Ok(next) => next
  }

  /** `span` gives the dates asked of each symbol. */
  function Collected(s: Store, z: Zone, c: Cycle, symbols: seq<string>, span: string -> (int, int)): Store {
    if symbols == [] then s
    else Attempted(
      Collected(s, z, c, Init(symbols), span), z, c, Last(symbols), span(Last(symbols)).0, span(Last(symbols)).1)
  }

  // ---- what an attempt does to the order --------------------------------------------------------------------

  /** Only this symbol's attempt moves, and only to now. */
  predicate Touches(s: Store, next: Store, symbol: string, now: int, other: string) {
    && (other != symbol ==> LastAttempt(next, other) == LastAttempt(s, other))
    && (LastAttempt(next, symbol) == LastAttempt(s, symbol) || LastAttempt(next, symbol) == Some(now))
  }

  lemma {:induction false} FailureMoves(xs: seq<Failure>, f: Failure, other: string)
    requires NotAfter(LastFailure(xs, f.symbol), Some(f.at))
    ensures LastFailure(WithFailure(xs, f), other) == if other == f.symbol then Some(f.at) else LastFailure(xs, other)
  {
    if f in xs {
      FailureCounts(xs, f);
    } else {
      assert Init(xs + [f]) == xs;
    }
  }

  lemma {:induction false} FailureTouches(s: Store, f: Failure, other: string)
    requires NotAfter(LastAttempt(s, f.symbol), Some(f.at))
    ensures var next := s.(failures := WithFailure(s.failures, f));
      Touches(s, next, f.symbol, f.at, other) && LastAttempt(next, f.symbol) == Some(f.at)
  {
    FailureMoves(s.failures, f, other);
    FailureMoves(s.failures, f, f.symbol);
  }

  lemma {:induction false} FailureCounts(xs: seq<Failure>, f: Failure)
    requires f in xs
    ensures NotAfter(Some(f.at), LastFailure(xs, f.symbol))
  {
    assert xs == Init(xs) + [Last(xs)];
    if Last(xs) != f {
      FailureCounts(Init(xs), f);
    }
  }

  lemma {:induction false} RejectionsTouch(s: Store, symbol: string, now: int, rejections: seq<string>, other: string)
    requires NotAfter(LastAttempt(s, symbol), Some(now))
    ensures var next := s.(failures := WithRejections(s.failures, symbol, now, rejections));
      Touches(s, next, symbol, now, other) && NotAfter(LastAttempt(next, symbol), Some(now))
  {
    if rejections != [] {
      RejectionsTouch(s, symbol, now, Init(rejections), other);
      var middle := s.(failures := WithRejections(s.failures, symbol, now, Init(rejections)));
      FailureTouches(middle, Failure(symbol, now, "source_bar_rejected", Note(Last(rejections))), other);
    }
  }

  lemma {:induction false} AppendTouches(
    s: Store, t: Tally, vs: seq<Value>, now: int, today: int, through: Option<int>, symbol: string, other: string)
    requires AllOf(vs, symbol) && t.failures == s.failures && NotAfter(LastAttempt(s, symbol), Some(now))
    requires AppendAll(t, vs, now, today, through).Ok?
    ensures var next := s.(failures := AppendAll(t, vs, now, today, through).value.failures);
      Touches(s, next, symbol, now, other) && NotAfter(LastAttempt(next, symbol), Some(now))
  {
    if vs != [] {
      AppendTouches(s, t, Init(vs), now, today, through, symbol, other);
      var middle := AppendAll(t, Init(vs), now, today, through).value;
      if Complete(Last(vs), today, through) && BarError(Last(vs)).Some? {
        FailureTouches(s.(failures := middle.failures), BadBarFailure(Last(vs), now), other);
      }
    }
  }

  lemma {:induction false} BetweenKeeps(bars: seq<Value>, start: int, through: int, symbol: string)
    requires AllOf(bars, symbol)
    ensures AllOf(Between(bars, start, through), symbol)
  {
    if bars != [] {
      BetweenKeeps(Init(bars), start, through, symbol);
    }
  }

  lemma {:induction false} SortedAllOf(bars: seq<Value>, symbol: string)
    requires AllOf(bars, symbol)
    ensures AllOf(Sorting.Sort(BySymbolAndDay(), bars), symbol)
  {
    var sorted := Sorting.Sort(BySymbolAndDay(), bars);
    Sorting.SortMembers(BySymbolAndDay(), bars);
    forall i | 0 <= i < |sorted| ensures sorted[i].symbol == symbol {
      assert sorted[i] in sorted;
    }
  }

  /** Success or failure, an attempt puts its symbol at now and moves no other. */
  lemma {:induction false} AttemptedTouches(
    s: Store, z: Zone, c: Cycle, symbol: string, start: int, through: int, other: string)
    requires NotAfter(LastAttempt(s, symbol), Some(c.now))
    ensures var next := Attempted(s, z, c, symbol, start, through);
      Touches(s, next, symbol, c.now, other) && LastAttempt(next, symbol) == Some(c.now)
  {
    match c.fetch(symbol)
    case Raised(message, _) => FailureTouches(
      s, Failure(symbol, c.now, "symbol_collection_failed", Note(message)), other);
    case Fetched(bars, rejections) => FetchedTouches(s, z, c, symbol, start, through, bars, rejections, other);
  }

  lemma {:induction false} FetchedTouches(
    s: Store, z: Zone, c: Cycle, symbol: string, start: int, through: int, bars: seq<Value>, rejections: seq<string>,
    other: string)
    requires NotAfter(LastAttempt(s, symbol), Some(c.now)) && c.fetch(symbol) == Fetched(bars, rejections)
    ensures var next := Attempted(s, z, c, symbol, start, through);
      Touches(s, next, symbol, c.now, other) && LastAttempt(next, symbol) == Some(c.now)
  {
    var noted := s.(failures := WithRejections(s.failures, symbol, c.now, rejections));
    RejectionsTouch(s, symbol, c.now, rejections, other);
    if !AllOf(bars, symbol) {
      FailureTouches(
        noted, Failure(symbol, c.now, "symbol_collection_failed",
                       Note("historical source returned a bar for the wrong symbol")), other);
    } else {
      var inRange, today := Between(bars, start, through), z.localDay(c.now);
      BetweenKeeps(bars, start, through, symbol);
      match Appended(noted, inRange, c.now, today, c.completed)
      case Rejected(why) => FailureTouches(noted, Failure(symbol, c.now, "symbol_collection_failed", Note(why)), other);
      case Ok(t) =>
        SortedAllOf(inRange, symbol);
        AppendTouches(
          noted, Tally(noted.observations, noted.failures, 0, 0, 0), Sorting.Sort(BySymbolAndDay(), inRange),
          c.now, today,
          c.completed, symbol, other);
        PollTouches(noted, t, z, c, symbol, start, through, Counts(|bars|, |inRange|, |rejections|, t.rejected), other);
    }
  }

  lemma {:induction false} PollTouches(
    s: Store, t: Tally, z: Zone, c: Cycle, symbol: string, start: int, through: int, counts: Counts, other: string)
    requires Touches(s, s.(failures := t.failures), symbol, c.now, other)
    requires NotAfter(LastAttempt(s.(failures := t.failures), symbol), Some(c.now))
    ensures var stored := s.(observations := t.observations, failures := t.failures);
      var next := match RecordPoll(stored, z, symbol, z.localDay(c.now), start, through, c.completed, c.now, counts)
        case Rejected(why) => WithCollectionFailure(stored, symbol, c.now, why)
        case Ok(polled) => polled;
      Touches(s, next, symbol, c.now, other) && LastAttempt(next, symbol) == Some(c.now)
  {
    var stored := s.(observations := t.observations, failures := t.failures);
    assert forall x :: LastAttempt(stored, x) == LastAttempt(s.(failures := t.failures), x);
    match RecordPoll(stored, z, symbol, z.localDay(c.now), start, through, c.completed, c.now, counts)
    case Rejected(why) => FailureTouches(stored, Failure(symbol, c.now, "symbol_collection_failed", Note(why)), other);
    case Ok(_) =>
  }

  predicate AttemptedBy(s: Store, symbol: string, now: int) {
    NotAfter(LastAttempt(s, symbol), Some(now))
  }

  function AttemptAfter(s: Store, symbols: seq<string>, now: int, x: string): Option<int> {
    if x in symbols then Some(now) else LastAttempt(s, x)
  }

  /** A cycle that runs to the end puts each chosen symbol at now and moves no other. */
  lemma {:induction false} CycleTouches(
    s: Store, z: Zone, c: Cycle, symbols: seq<string>, span: string -> (int, int), x: string)
    requires forall t :: AttemptedBy(s, t, c.now)
    ensures LastAttempt(Collected(s, z, c, symbols, span), x) == AttemptAfter(s, symbols, c.now, x)
    decreases |symbols|
  {
    if symbols != [] {
      var last, middle := Last(symbols), Collected(s, z, c, Init(symbols), span);
      CycleTouches(s, z, c, Init(symbols), span, x);
      CycleTouches(s, z, c, Init(symbols), span, last);
      assert AttemptedBy(s, last, c.now);
      AttemptedTouches(middle, z, c, last, span(last).0, span(last).1, x);
      InInit(symbols, x);
    }
  }

  lemma {:induction false} InInit(symbols: seq<string>, x: string)
    requires symbols != []
    ensures x in symbols <==> x in Init(symbols) || x == Last(symbols)
  {
    assert symbols == Init(symbols) + [Last(symbols)];
  }

  // ---- fairness ------------------------------------------------------------------------------------------------

  /** One cycle as planned: the symbols due, and what the cycle did about them. */
  datatype Planned = Planned(due: seq<string>, cycle: Cycle, span: string -> (int, int))

  /**
   A run of complete cycles with strictly increasing times and one cap.  Whatever is asked for
   between cycles only decides what is due, out of a fixed universe of symbols.
   */
  ghost predicate Run(z: Zone, universe: set<string>, cap: nat, stores: seq<Store>, plans: seq<Planned>) {
    && |stores| == |plans| + 1
    && (forall i :: 0 <= i < |plans| ==> Cycles(z, universe, cap, stores[i], plans[i], stores[i + 1]))
    && (forall i, j :: 0 <= i < j < |plans| ==> plans[i].cycle.now < plans[j].cycle.now)
    && (plans != [] ==> forall t :: AttemptedBefore(stores[0], t, plans[0].cycle.now))
  }

  ghost predicate Cycles(z: Zone, universe: set<string>, cap: nat, s: Store, p: Planned, next: Store) {
    && (forall i :: 0 <= i < |p.due| ==> p.due[i] in universe)
    && p.cycle.cap == cap
    && next == Collected(s, z, p.cycle, Chosen(s, p.due, cap), p.span)
  }

  predicate AttemptedBefore(s: Store, symbol: string, now: int) {
    LastAttempt(s, symbol).Some? ==> LastAttempt(s, symbol).value < now
  }

  /** The symbols that go before this one. */
  function Ahead(s: Store, universe: set<string>, x: string): set<string> {
    set u | u in universe && u != x && Goes(s, u, x)
  }

  lemma {:induction false} CyclePrecedes(
    z: Zone, universe: set<string>, cap: nat, s: Store, p: Planned, next: Store, later: int, t: string)
    requires Cycles(z, universe, cap, s, p, next) && p.cycle.now < later
    requires forall x :: AttemptedBefore(s, x, p.cycle.now)
    ensures AttemptedBefore(next, t, later)
  {
    forall x ensures AttemptedBy(s, x, p.cycle.now) {
      assert AttemptedBefore(s, x, p.cycle.now);
    }
    CycleTouches(s, z, p.cycle, Chosen(s, p.due, cap), p.span, t);
    assert AttemptedBefore(s, t, p.cycle.now);
  }

  lemma {:induction false} AttemptsPrecede(
    z: Zone, universe: set<string>, cap: nat, stores: seq<Store>, plans: seq<Planned>, i: nat, t: string)
    requires Run(z, universe, cap, stores, plans) && i < |plans|
    ensures AttemptedBefore(stores[i], t, plans[i].cycle.now)
    decreases i
  {
    if i > 0 {
      var s, p := stores[i - 1], plans[i - 1];
      forall x ensures AttemptedBefore(s, x, p.cycle.now) {
        AttemptsPrecede(z, universe, cap, stores, plans, i - 1, x);
      }
      assert Cycles(z, universe, cap, s, p, stores[i - 1 + 1]);
      CyclePrecedes(z, universe, cap, s, p, stores[i], plans[i].cycle.now, t);
    }
  }

  lemma {:induction false} SetSize(xs: seq<string>, a: set<string>)
    requires (forall i, j :: 0 <= i < j < |xs| ==> xs[i] != xs[j]) && forall i :: 0 <= i < |xs| ==> xs[i] in a
    ensures |xs| <= |a|
  {
    if xs != [] {
      assert forall i :: 0 <= i < |xs| - 1 ==> Init(xs)[i] == xs[i] && xs[i] != Last(xs);
      SetSize(Init(xs), a - {Last(xs)});
    }
  }

  lemma {:induction false} Fewer(a: set<string>, b: set<string>, xs: seq<string>)
    requires a <= b && (forall i, j :: 0 <= i < j < |xs| ==> xs[i] != xs[j])
    requires forall i :: 0 <= i < |xs| ==> xs[i] in b && xs[i] !in a
    ensures |a| + |xs| <= |b|
  {
    SetSize(xs, b - a);
    assert b == a + (b - a);
  }

  /** A cycle that passes a due symbol over moves a full cycle of others behind it. */
  lemma {:induction false} PassedOverAdvances(
    z: Zone, universe: set<string>, cap: nat, s: Store, p: Planned, next: Store, x: string)
    requires Cycles(z, universe, cap, s, p, next)
    requires forall t :: AttemptedBefore(s, t, p.cycle.now)
    requires x in p.due && x !in Chosen(s, p.due, cap)
    ensures |Ahead(next, universe, x)| + cap <= |Ahead(s, universe, x)|
  {
    var chosen := Chosen(s, p.due, cap);
    PassedOver(s, p.due, cap, x);
    forall t ensures AttemptedBy(s, t, p.cycle.now) {
      assert AttemptedBefore(s, t, p.cycle.now);
    }
    forall t ensures LastAttempt(next, t) == if t in chosen then Some(p.cycle.now) else LastAttempt(s, t) {
      CycleTouches(s, z, p.cycle, chosen, p.span, t);
    }
    assert AttemptedBefore(s, x, p.cycle.now);
    forall i | 0 <= i < |chosen| ensures chosen[i] in Ahead(s, universe, x) && chosen[i] !in Ahead(next, universe, x) {
      assert chosen[i] in chosen;
      assert exists k :: 0 <= k < |p.due| && p.due[k] == chosen[i];
    }
    Fewer(Ahead(next, universe, x), Ahead(s, universe, x), chosen);
  }

  /**
   A symbol that stays due is attempted within any window of cycles whose total capacity reaches the
   size of the universe, that is within its size over the cap, rounded up.
   */
  lemma {:induction false} DueSymbolsAreServed(
    z: Zone, universe: set<string>, cap: nat, stores: seq<Store>, plans: seq<Planned>, i: nat, window: nat, x: string)
    requires Run(z, universe, cap, stores, plans) && i + window <= |plans|
    requires forall j :: i <= j < i + window ==> x in plans[j].due
    requires window * cap >= |universe| && window > 0
    ensures exists j :: i <= j < i + window && x in Chosen(stores[j], plans[j].due, cap)
  {
    if forall j :: i <= j < i + window ==> x !in Chosen(stores[j], plans[j].due, cap) {
      WaitingShrinks(z, universe, cap, stores, plans, i, window, x);
      assert Cycles(z, universe, cap, stores[i], plans[i], stores[i + 1]);
      assert x in plans[i].due;
      assert x in universe && x !in Ahead(stores[i], universe, x);
      SubsetSmaller(Ahead(stores[i], universe, x), universe, x);
      assert false;
    }
  }

  lemma {:induction false} SubsetSmaller(a: set<string>, b: set<string>, x: string)
    requires a <= b && x in b && x !in a
    ensures |a| < |b|
  {
    Fewer(a, b, [x]);
  }

  lemma {:induction false} WaitsOnce(
    z: Zone, universe: set<string>, cap: nat, stores: seq<Store>, plans: seq<Planned>, j: nat, x: string)
    requires Run(z, universe, cap, stores, plans) && j < |plans|
    requires x in plans[j].due && x !in Chosen(stores[j], plans[j].due, cap)
    ensures |Ahead(stores[j + 1], universe, x)| + cap <= |Ahead(stores[j], universe, x)|
  {
    forall t ensures AttemptedBefore(stores[j], t, plans[j].cycle.now) {
      AttemptsPrecede(z, universe, cap, stores, plans, j, t);
    }
    assert Cycles(z, universe, cap, stores[j], plans[j], stores[j + 1]);
    PassedOverAdvances(z, universe, cap, stores[j], plans[j], stores[j + 1], x);
  }

  predicate Drops(waiting: seq<nat>, j: nat, cap: nat)
    requires j + 1 < |waiting|
  {
    waiting[j + 1] + cap <= waiting[j]
  }

  lemma {:induction false} Descends(waiting: seq<nat>, i: nat, window: nat, cap: nat)
    requires i + window < |waiting|
    requires forall j :: i <= j < i + window ==> Drops(waiting, j, cap)
    ensures waiting[i + window] + window * cap <= waiting[i]
  {
    if window > 0 {
      Descends(waiting, i, window - 1, cap);
      assert Drops(waiting, i + window - 1, cap);
      assert window * cap == (window - 1) * cap + cap;
    }
  }

  lemma {:induction false} WaitingShrinks(
    z: Zone, universe: set<string>, cap: nat, stores: seq<Store>, plans: seq<Planned>, i: nat, window: nat, x: string)
    requires Run(z, universe, cap, stores, plans) && i + window <= |plans|
    requires forall j :: i <= j < i + window ==> x in plans[j].due && x !in Chosen(stores[j], plans[j].due, cap)
    ensures |Ahead(stores[i + window], universe, x)| + window * cap <= |Ahead(stores[i], universe, x)|
  {
    var waiting := seq(|stores|, j requires 0 <= j < |stores| => |Ahead(stores[j], universe, x)|);
    forall j | i <= j < i + window ensures Drops(waiting, j, cap) {
      WaitsOnce(z, universe, cap, stores, plans, j, x);
    }
    Descends(waiting, i, window, cap);
  }

  // ---- the store ---------------------------------------------------------------------------------------------------

  /** Values never repeat, clocks never run backwards, and every cache row is the fold of its receipts. */
  ghost predicate Sound(z: Zone, s: Store) {
    Ledger(s.observations) && ReceiptsInOrder(s.receipts) && CacheIsFold(z, s)
  }

  lemma {:induction false} AppendedKeepsSound(
    z: Zone, s: Store, bars: seq<Value>, at: int, today: int, through: Option<int>)
    requires Sound(z, s) && Appended(s, bars, at, today, through).Ok?
    ensures var t := Appended(s, bars, at, today, through).value;
      && Sound(z, s.(observations := t.observations, failures := t.failures)) && s.observations <= t.observations
      && |t.observations| == |s.observations| + t.added
  {
    AppendAllGrows(
      Tally(s.observations, s.failures, 0, 0, 0), Sorting.Sort(BySymbolAndDay(), bars), at, today, through);
  }

  lemma {:induction false} AttemptedKeepsSound(s: Store, z: Zone, c: Cycle, symbol: string, start: int, through: int)
    requires Sound(z, s)
    ensures Sound(z, Attempted(s, z, c, symbol, start, through))
    ensures s.observations <= Attempted(s, z, c, symbol, start, through).observations
  {
    if c.fetch(symbol).Fetched? && AllOf(c.fetch(symbol).bars, symbol) {
      var bars, rejections := c.fetch(symbol).bars, c.fetch(symbol).rejections;
      var noted := s.(failures := WithRejections(s.failures, symbol, c.now, rejections));
      var inRange, today := Between(bars, start, through), z.localDay(c.now);
      if Appended(noted, inRange, c.now, today, c.completed).Ok? {
        AppendedKeepsSound(z, noted, inRange, c.now, today, c.completed);
        var t := Appended(noted, inRange, c.now, today, c.completed).value;
        var stored, counts := noted.(observations := t.observations, failures := t.failures),
          Counts(|bars|, |inRange|, |rejections|, t.rejected);
        if RecordPoll(stored, z, symbol, today, start, through, c.completed, c.now, counts).Ok? {
          RecordPollKeepsCache(stored, z, symbol, today, start, through, c.completed, c.now, counts);
        }
      }
    }
  }

  /** Whatever the source answers, a cycle keeps the ledger and the cache sound and only adds observations. */
  lemma {:induction false} CollectedKeepsSound(
    s: Store, z: Zone, c: Cycle, symbols: seq<string>, span: string -> (int, int))
    requires Sound(z, s)
    ensures Sound(z, Collected(s, z, c, symbols, span))
    ensures s.observations <= Collected(s, z, c, symbols, span).observations
  {
    if symbols != [] {
      CollectedKeepsSound(s, z, c, Init(symbols), span);
      AttemptedKeepsSound(
        Collected(s, z, c, Init(symbols), span), z, c, Last(symbols), span(Last(symbols)).0, span(Last(symbols)).1);
    }
  }

  function SymbolsOf(requests: seq<Request>): seq<string> {
    seq(|requests|, i requires 0 <= i < |requests| => requests[i].symbol)
  }

  function SpanOf(requests: seq<Request>): string -> (int, int) {
    symbol =>
      match (Earliest(requests, symbol), Latest(requests, symbol))
      case (Some(start), Some(through)) => (start, through)
      case _ => (0, 0)
  }

  // ---- the health row ---------------------------------------------------------------------------------------

  datatype Total = Total(failed: nat, added: nat, rejected: int)

  datatype Health = Health(result: string, symbols: nat, total: Total)

  /** What one attempt adds to the totals. */
  datatype Count = Count(failed: bool, added: nat, rejected: int)

  /** After this symbol the source is to be connected again and is not. */
  predicate Breaks(c: Cycle, symbols: seq<string>, i: nat)
    requires i < |symbols|
  {
    i + 1 < |symbols| && c.fetch(symbols[i]).Raised? && c.fetch(symbols[i]).reset && !c.reconnects(symbols[i])
  }

  function ReachedFrom(c: Cycle, symbols: seq<string>, i: nat): (n: nat)
    requires i < |symbols|
    ensures i < n <= |symbols|
    decreases |symbols| - i
  {
    if Breaks(c, symbols, i) || i + 1 == |symbols| then i + 1 else ReachedFrom(c, symbols, i + 1)
  }

  /** How many of the chosen symbols a cycle attempts. */
  function Reached(c: Cycle, symbols: seq<string>): (n: nat)
    ensures n <= |symbols|
  {
    if symbols == [] || !c.connects then 0 else ReachedFrom(c, symbols, 0)
  }

  function RejectedBy(r: Receipt): int {
    r.counts.sourceRejected + r.counts.invalid
  }

  function RejectedSum(receipts: seq<Receipt>): int {
    if receipts == [] then 0 else RejectedSum(Init(receipts)) + RejectedBy(Last(receipts))
  }

  /** An attempt that did not fail left one receipt, and the receipt and the new rows give its counts. */
  predicate Counted(s: Store, next: Store, count: Count) {
    && |s.observations| + count.added <= |next.observations|
    && s.receipts <= next.receipts
    && (count.failed ==> next.receipts == s.receipts && count.added == 0 && count.rejected == 0)
    && (!count.failed ==>
          && |next.receipts| == |s.receipts| + 1
          && |next.observations| == |s.observations| + count.added
          && count.rejected == RejectedBy(Last(next.receipts)))
  }

  /** The totals of a cycle after `n` attempts, read off the tables it left. */
  predicate Tallies(s: Store, next: Store, n: nat, total: Total) {
    && s.receipts <= next.receipts
    && total.failed + |next.receipts| == n + |s.receipts|
    && |s.observations| + total.added <= |next.observations|
    && (total.failed == 0 ==> |s.observations| + total.added == |next.observations|)
    && total.rejected == RejectedSum(next.receipts[|s.receipts|..])
  }

  function Tallied(total: Total, count: Count): Total {
    Total(
      if count.failed then total.failed + 1 else total.failed, total.added + count.added,
      total.rejected + count.rejected)
  }

  lemma {:induction false} TallyNext(s: Store, before: Store, next: Store, n: nat, total: Total, count: Count)
    requires Tallies(s, before, n, total) && Counted(before, next, count)
    ensures Tallies(s, next, n + 1, Tallied(total, count))
  {
    if !count.failed {
      var since := next.receipts[|s.receipts|..];
      assert Init(since) == before.receipts[|s.receipts|..] && Last(since) == Last(next.receipts);
    }
  }

  /** What the health row of a cycle says of the tables: every attempt left a receipt or counts as failed. */
  predicate Reports(h: Health, s: Store, next: Store, attempted: nat, symbols: nat) {
    && h.symbols == symbols
    && Tallies(s, next, attempted, h.total)
    && h.result == (
      if symbols == 0 then "idle"
      else if attempted < symbols then "failed"
      else if h.total.failed > 0 || h.total.rejected != 0 then "partial"
      else "completed")
  }

  class BarStore {
    const zone: Zone
    var health: Option<Health>
    var observations: seq<Observation>
    var receipts: seq<Receipt>
    var polls: map<string, Poll>
    var failures: seq<Failure>

    function State(): Store
      reads this
    {
      Store(observations, receipts, polls, failures)
    }

    constructor (z: Zone)
      ensures zone == z && State() == Store([], [], map[], []) && Sound(zone, State())
    {
      zone, health, observations, receipts, polls, failures := z, None, [], [], map[], [];
    }

    /** One transaction: the rows are committed together, or a refusal leaves every table as it was. */
    method AppendCompleted(bars: seq<Value>, at: int, through: Option<int>) returns (r: Result<(nat, nat, nat)>)
      requires Sound(zone, State())
      modifies this`observations, this`failures
      ensures Sound(zone, State())
      ensures match Appended(old(State()), bars, at, zone.localDay(at), through)
        case Ok(t) => observations == t.observations && failures == t.failures
          && r == Ok((t.added, t.revisions, t.rejected))
        case Rejected(why) => State() == old(State()) && r == Rejected(why)
      ensures r.Ok? ==> |observations| == |old(observations)| + r.value.0
    {
      var today := zone.localDay(at);
      if through.Some? && through.value > today {
        return Rejected("completed-through date cannot be in the future");
      }
      var sorted := Sorting.Sort(BySymbolAndDay(), bars);
      var start := Tally(observations, failures, 0, 0, 0);
      var t := start;
      for i := 0 to |sorted|
        invariant AppendAll(start, sorted[..i], at, today, through) == Ok(t)
      {
        assert Init(sorted[..i + 1]) == sorted[..i] && Last(sorted[..i + 1]) == sorted[i];
        var next := AppendOne(t, sorted[i], at, today, through);
        if next.Rejected? {
          RejectedStays(start, sorted, at, today, through, i + 1);
          return Rejected(next.reason);
        }
        t := next.value;
      }
      assert sorted[..|sorted|] == sorted;
      AppendedKeepsSound(zone, State(), bars, at, today, through);
      observations, failures := t.observations, t.failures;
      return Ok((t.added, t.revisions, t.rejected));
    }

    method RecordSuccessfulPoll(
      symbol: string, localDate: int, start: int, through: int, completed: Option<int>, now: int, counts: Counts)
      returns (r: Result<nat>)
      requires Sound(zone, State())
      modifies this`receipts, this`polls
      ensures Sound(zone, State())
      ensures match RecordPoll(old(State()), zone, symbol, localDate, start, through, completed, now, counts)
        case Ok(next) => State() == next && r == Ok(|receipts|)
        case Rejected(why) => State() == old(State()) && r == Rejected(why)
    {
      var next := RecordPoll(State(), zone, symbol, localDate, start, through, completed, now, counts);
      if next.Rejected? {
        return Rejected(next.reason);
      }
      RecordPollKeepsCache(State(), zone, symbol, localDate, start, through, completed, now, counts);
      receipts := receipts + [Receipt(symbol, now, start, through, completed, counts, |observations|)];
      polls := polls[symbol := Upsert(Cached(polls, symbol), localDate, start, now, completed)];
      return Ok(|receipts|);
    }

    method RecordFailure(f: Failure)
      modifies this`failures
      ensures failures == WithFailure(old(failures), f)
    {
      if f !in failures {
        failures := failures + [f];
      }
    }

    /** Every exception while one symbol is collected becomes a failure row for it. */
    method CollectSymbol(c: Cycle, symbol: string, start: int, through: int) returns (count: Count)
      requires Sound(zone, State())
      modifies this`observations, this`receipts, this`polls, this`failures
      ensures Sound(zone, State()) && State() == Attempted(old(State()), zone, c, symbol, start, through)
      ensures Counted(old(State()), State(), count)
    {
      AttemptedKeepsSound(State(), zone, c, symbol, start, through);
      ghost var s := State();
      match c.fetch(symbol)
      case Raised(message, _) =>
        RecordFailure(Failure(symbol, c.now, "symbol_collection_failed", Note(message)));
        return Count(true, 0, 0);
      case Fetched(bars, rejections) =>
        for i := 0 to |rejections|
          invariant State() == s.(failures := WithRejections(s.failures, symbol, c.now, rejections[..i]))
        {
          assert Init(rejections[..i + 1]) == rejections[..i] && Last(rejections[..i + 1]) == rejections[i];
          RecordFailure(Failure(symbol, c.now, "source_bar_rejected", Note(rejections[i])));
        }
        assert rejections[..|rejections|] == rejections;
        if !AllOf(bars, symbol) {
          RecordFailure(Failure(symbol, c.now, "symbol_collection_failed",
                                Note("historical source returned a bar for the wrong symbol")));
          return Count(true, 0, 0);
        }
        count := FileBars(c, symbol, start, through, bars, |rejections|);
    }

    /** Two transactions: the observations, then the receipt; a refusal of either is a failure row. */
    method FileBars(c: Cycle, symbol: string, start: int, through: int, bars: seq<Value>, sourceRejected: nat)
      returns (count: Count)
      requires Sound(zone, State())
      modifies this`observations, this`receipts, this`polls, this`failures
      ensures State() == Filed(old(State()), zone, c, symbol, start, through, bars, sourceRejected)
      ensures Counted(old(State()), State(), count)
    {
      var inRange := Between(bars, start, through);
      var appended := AppendCompleted(inRange, c.now, c.completed);
      if appended.Rejected? {
        RecordFailure(Failure(symbol, c.now, "symbol_collection_failed", Note(appended.reason)));
        return Count(true, 0, 0);
      }
      var polled := RecordSuccessfulPoll(
        symbol, zone.localDay(c.now), start, through, c.completed, c.now,
        Counts(|bars|, |inRange|, sourceRejected, appended.value.2));
      if polled.Rejected? {
        RecordFailure(Failure(symbol, c.now, "symbol_collection_failed", Note(polled.reason)));
        return Count(true, 0, 0);
      }
      return Count(false, appended.value.0, sourceRejected + appended.value.2);
    }

    /**
     One cycle: the due requests, the fair choice of symbols, one attempt each, until the source can no
     longer be connected.  The health row counts every attempt as a receipt or a failure.
     */
    method CollectOnce(c: Cycle, requests: seq<Request>) returns (r: Result<seq<string>>)
      requires Sound(zone, State())
      modifies this
      ensures Sound(zone, State())
      ensures c.cap == 0 ==> r.Rejected? && State() == old(State()) && health == old(health)
      ensures c.cap > 0 ==>
        var due := Pending(old(State()), requests, zone.localDay(c.now), c.completed);
        var symbols := Chosen(old(State()), SymbolsOf(due), c.cap);
        var n := Reached(c, symbols);
        && State() == Collected(old(State()), zone, c, symbols[..n], SpanOf(due))
        && r == (if n == |symbols| then Ok(symbols) else Rejected("the source could not be connected"))
        && health.Some? && Reports(health.value, old(State()), State(), n, |symbols|)
    {
      if c.cap == 0 {
        return Rejected("bar-feed symbol limit must be positive");
      }
      ghost var s := State();
      var due := PendingRequests(State(), requests, zone.localDay(c.now), c.completed);
      var symbols := Chosen(State(), SymbolsOf(due), c.cap);
      var span := SpanOf(due);
      if symbols == [] {
        health := Some(Health("idle", 0, Total(0, 0, 0)));
        return Ok(symbols);
      }
      health := Some(Health("started", |symbols|, Total(0, 0, 0)));
      assert symbols[..0] == [];
      if !c.connects {
        health := Some(Health("failed", |symbols|, Total(0, 0, 0)));
        return Rejected("the source could not be connected");
      }
      var n, total := AttemptEach(c, symbols, span);
      if n < |symbols| {
        health := Some(Health("failed", |symbols|, total));
        return Rejected("the source could not be connected");
      }
      assert symbols[..|symbols|] == symbols;
      health := Some(
        Health(if total.failed > 0 || total.rejected != 0 then "partial" else "completed", |symbols|, total));
      return Ok(symbols);
    }

    /** One attempt each, up to a reset after which the source cannot be connected. */
    method AttemptEach(c: Cycle, symbols: seq<string>, span: string -> (int, int)) returns (n: nat, total: Total)
      requires Sound(zone, State()) && symbols != [] && c.connects
      modifies this`observations, this`receipts, this`polls, this`failures
      ensures Sound(zone, State())
      ensures n == Reached(c, symbols) && State() == Collected(old(State()), zone, c, symbols[..n], span)
      ensures Tallies(old(State()), State(), n, total)
    {
      ghost var s := State();
      total := Total(0, 0, 0);
      n := 0;
      while n < |symbols|
        invariant 0 <= n <= |symbols| && Sound(zone, State())
        invariant n < |symbols| ==> ReachedFrom(c, symbols, n) == Reached(c, symbols)
        invariant n == |symbols| ==> Reached(c, symbols) == |symbols|
        invariant State() == Collected(s, zone, c, symbols[..n], span)
        invariant Tallies(s, State(), n, total)
      {
        assert Init(symbols[..n + 1]) == symbols[..n] && Last(symbols[..n + 1]) == symbols[n];
        ghost var before := State();
        var count := CollectSymbol(c, symbols[n], span(symbols[n]).0, span(symbols[n]).1);
        TallyNext(s, before, State(), n, total, count);
        total := Tallied(total, count);
        n := n + 1;
        if Breaks(c, symbols, n - 1) {
          return;
        }
      }
    }
  }

  lemma {:induction false} RejectedStays(t: Tally, vs: seq<Value>, at: int, today: int, through: Option<int>, n: nat)
    requires n <= |vs| && AppendAll(t, vs[..n], at, today, through).Rejected?
    ensures AppendAll(t, vs, at, today, through) == AppendAll(t, vs[..n], at, today, through)
    decreases |vs|
  {
    if n == |vs| {
      assert vs[..n] == vs;
    } else {
      assert Init(vs)[..n] == vs[..n];
      RejectedStays(t, Init(vs), at, today, through, n);
    }
  }
}
