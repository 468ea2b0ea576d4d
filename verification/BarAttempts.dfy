/**
 One collection attempt told on the tables: whose turn it is, what is asked of the source's answer,
 and when an attempt leaves a receipt.
 */
module BarAttempts {
  import opened Prelude
  import opened LocalTime
  import opened BarFeed
  import opened BarPolls
  import opened BarCollection
  import Sorting

  // ---- whose turn it is -------------------------------------------------------------------------

  /** Some table row dates an attempt of the symbol at that instant. */
  predicate Tried(s: Store, symbol: string, at: int) {
    || (symbol in s.polls && s.polls[symbol].at == at)
    || exists i :: 0 <= i < |s.failures| && s.failures[i].symbol == symbol && s.failures[i].at == at
  }

  /** A symbol's last attempt is its newest failure row or its cached success, whichever is later. */
  lemma {:induction false} LastAttemptIsNewest(s: Store, symbol: string)
    ensures match LastAttempt(s, symbol)
      case None => forall at :: !Tried(s, symbol, at)
      case Some(last) => Tried(s, symbol, last) && forall at :: Tried(s, symbol, at) ==> at <= last
  {
    LastFailureIsNewest(s.failures, symbol);
  }

  lemma {:induction false} LastFailureIsNewest(xs: seq<Failure>, symbol: string)
    ensures match LastFailure(xs, symbol)
      case None => forall i :: 0 <= i < |xs| ==> xs[i].symbol != symbol
      case Some(last) =>
        && (exists i :: 0 <= i < |xs| && xs[i].symbol == symbol && xs[i].at == last)
        && forall i :: 0 <= i < |xs| && xs[i].symbol == symbol ==> xs[i].at <= last
  {
    if xs != [] {
      var rest := Init(xs);
      LastFailureIsNewest(rest, symbol);
      assert forall i :: 0 <= i < |rest| ==> rest[i] == xs[i];
      assert xs[|xs| - 1] == Last(xs);
      if LastFailure(rest, symbol).Some? {
        var i :| 0 <= i < |rest| && rest[i].symbol == symbol && rest[i].at == LastFailure(rest, symbol).value;
        assert xs[i].at == LastFailure(rest, symbol).value;
      }
    }
  }

  /** `a` was never tried and `b` was, or `a` was tried earlier, or neither and `a` comes first by name. */
  predicate Before(s: Store, a: string, b: string) {
    match (LastAttempt(s, a), LastAttempt(s, b))
    case (None, Some(_)) => true
    case (Some(_), None) => false
    case (None, None) => Sorting.TextLeq(a, b)
    case (Some(x), Some(y)) => x < y || (x == y && Sorting.TextLeq(a, b))
  }

  /** A cycle attempts distinct due symbols, all of them or as many as the cap, and no other is before them. */
  lemma {:induction false} ChosenInTurn(s: Store, symbols: seq<string>, cap: nat)
    ensures var chosen := Chosen(s, symbols, cap);
      && |chosen| <= cap
      && (forall x :: x in chosen ==> x in symbols)
      && (forall i, j :: 0 <= i < j < |chosen| ==> chosen[i] != chosen[j] && Before(s, chosen[i], chosen[j]))
      && (forall x, i :: x in symbols && x !in chosen && 0 <= i < |chosen| ==> Before(s, chosen[i], x))
      && (forall x :: x in symbols && x !in chosen ==> |chosen| == cap)
  {
    var chosen, ordered, unique := Chosen(s, symbols, cap), FairOrder(s, symbols), Unique(symbols);
    UniqueKeeps(symbols);
    TurnIsTotal(s);
    Sorting.SortSorts(Turn(s), unique);
    Sorting.SortMembers(Turn(s), unique);
    Sorting.SortContents(Turn(s), unique);
    SameContentsDistinct(unique, ordered);
    assert forall i :: 0 <= i < |chosen| ==> chosen[i] == ordered[i];
    forall x | x in chosen ensures x in symbols {
      assert x in ordered;
    }
    forall i, j | 0 <= i < j < |chosen| ensures chosen[i] != chosen[j] && Before(s, chosen[i], chosen[j]) {
      assert Turn(s)(ordered[i], ordered[j]);
    }
    forall x, i | x in symbols && x !in chosen && 0 <= i < |chosen| ensures Before(s, chosen[i], x) {
      PassedOver(s, symbols, cap, x);
    }
    forall x | x in symbols && x !in chosen ensures |chosen| == cap {
      PassedOver(s, symbols, cap, x);
    }
  }

  // ---- one attempt -----------------------------------------------------------------------------------

  lemma {:induction false} BetweenShorter(bars: seq<Value>, start: int, through: int)
    ensures |Between(bars, start, through)| <= |bars|
  {
    if bars != [] {
      BetweenShorter(Init(bars), start, through);
    }
  }

  /** The bar is dated inside the range asked for. */
  predicate Asked(v: Value, start: int, through: int) {
    start <= v.day <= through
  }

  lemma {:induction false} BetweenNext(bars: seq<Value>, start: int, through: int)
    requires bars != []
    ensures var rest, last := Between(Init(bars), start, through), Last(bars);
      Between(bars, start, through) == if Asked(last, start, through) then rest + [last] else rest
  {
  }

  /** The bars in range are those dated inside it, each as often as returned. */
  lemma {:induction false} BetweenIsExact(bars: seq<Value>, start: int, through: int, v: Value)
    ensures multiset(Between(bars, start, through))[v] == if Asked(v, start, through) then multiset(bars)[v] else 0
  {
    if bars != [] {
      var rest, last := Init(bars), Last(bars);
      BetweenIsExact(rest, start, through, v);
      BetweenNext(bars, start, through);
      Sorting.CountAppends(rest, last, v);
      Sorting.CountAppends(Between(rest, start, through), last, v);
      assert bars == rest + [last];
    }
  }

  /** One of the new, acceptable bars in range would be dated before a row already stored. */
  predicate Backdates(
    s: Store, bars: seq<Value>, start: int, through: int, now: int, today: int, completed: Option<int>)
  {
    && (exists i :: 0 <= i < |s.observations| && s.observations[i].at > now)
    && exists v ::
         v in bars && Asked(v, start, through) && Acceptable(v, today, completed) && !Stored(s.observations, v)
  }

  lemma {:induction false} AppendedExactlyWhen(s: Store, z: Zone, c: Cycle, bars: seq<Value>, start: int, through: int)
    ensures Appended(s, Between(bars, start, through), c.now, z.localDay(c.now), c.completed).Ok? <==>
      && (c.completed.Some? ==> c.completed.value <= z.localDay(c.now))
      && !Backdates(s, bars, start, through, c.now, z.localDay(c.now), c.completed)
  {
    var inRange, today := Between(bars, start, through), z.localDay(c.now);
    var sorted := Sorting.Sort(BySymbolAndDay(), inRange);
    BatchRefusedExactlyWhen(Tally(s.observations, s.failures, 0, 0, 0), sorted, c.now, today, c.completed);
    Sorting.SortMembers(BySymbolAndDay(), inRange);
    forall v ensures v in sorted <==> v in bars && Asked(v, start, through) {
      BetweenIsExact(bars, start, through, v);
      assert v in multiset(inRange) <==> v in inRange;
      assert v in multiset(bars) <==> v in bars;
    }
  }

  /** The failure row of an attempt that raised. */
  predicate FailedWith(s: Store, next: Store, symbol: string, now: int, message: string) {
    var f := Failure(symbol, now, "symbol_collection_failed", Note(message));
    next == s.(failures := if f in s.failures then s.failures else s.failures + [f])
  }

  /** The receipt of an attempt; `t` is what appending the bars in range gave. */
  function ReceiptOf(c: Cycle, symbol: string, start: int, through: int, inRange: nat, t: Tally): Receipt
    requires c.fetch(symbol).Fetched?
  {
    Receipt(symbol, c.now, start, through, c.completed,
            Counts(|c.fetch(symbol).bars|, inRange, |c.fetch(symbol).rejections|, t.rejected), |t.observations|)
  }

  /** What the source noted as rejected is kept as failures of this instant. */
  lemma {:induction false} RejectionsAreKept(
    xs: seq<Failure>, symbol: string, now: int, rejections: seq<string>, f: Failure)
    ensures f in WithRejections(xs, symbol, now, rejections) <==>
      || f in xs
      || (f.symbol == symbol && f.at == now && f.category == "source_bar_rejected" && f.detail.Note?
          && f.detail.text in rejections)
  {
    if rejections != [] {
      RejectionsAreKept(xs, symbol, now, Init(rejections), f);
      assert rejections == Init(rejections) + [Last(rejections)];
    }
  }

  /**
   What filing the bars leaves: a failure row alone if they cannot be stored, otherwise their rows and
   a receipt if the range is one and the receipt is new and not older than any other.
   */
  ghost predicate Files(
    s: Store, next: Store, z: Zone, c: Cycle, symbol: string, start: int, through: int, bars: seq<Value>)
    requires c.fetch(symbol).Fetched?
  {
    var today := z.localDay(c.now);
    var appended := Appended(s, Between(bars, start, through), c.now, today, c.completed);
    if (c.completed.Some? && c.completed.value > today)
      || Backdates(s, bars, start, through, c.now, today, c.completed)
    then exists why :: FailedWith(s, next, symbol, c.now, why)
    else
      && appended.Ok?
      && next.observations == appended.value.observations
      && var r := ReceiptOf(c, symbol, start, through, |Between(bars, start, through)|, appended.value);
      if start <= through && r !in s.receipts && forall i :: 0 <= i < |s.receipts| ==> s.receipts[i].at <= c.now
      then next.receipts == s.receipts + [r] && next.failures == appended.value.failures
      else exists why ::
        FailedWith(
          s.(observations := next.observations, failures := appended.value.failures), next, symbol, c.now, why)
  }

  /**
   An attempt leaves a receipt exactly when the source answered with bars of this symbol alone, nothing is
   claimed complete beyond today, no bar would be dated before a stored row, the range is one, and the receipt
   is new and not older than any other; otherwise it leaves a failure row and neither receipt nor cache row.
   */
  lemma {:induction false} ReceiptExactlyWhen(
    s: Store, z: Zone, c: Cycle, symbol: string, start: int, through: int)
    ensures var next := Attempted(s, z, c, symbol, start, through);
      match c.fetch(symbol)
      case Raised(message, _) => FailedWith(s, next, symbol, c.now, message)
      case Fetched(bars, rejections) =>
        var noted := s.(failures := WithRejections(s.failures, symbol, c.now, rejections));
        if exists i :: 0 <= i < |bars| && bars[i].symbol != symbol
        then FailedWith(noted, next, symbol, c.now, "historical source returned a bar for the wrong symbol")
        else Files(noted, next, z, c, symbol, start, through, bars)
  {
    match c.fetch(symbol)
    case Raised(_, _) =>
    case Fetched(bars, rejections) =>
      var noted := s.(failures := WithRejections(s.failures, symbol, c.now, rejections));
      if AllOf(bars, symbol) {
        FiledExactlyWhen(noted, z, c, symbol, start, through, bars, rejections);
      }
  }

  lemma {:induction false} FiledExactlyWhen(
    s: Store, z: Zone, c: Cycle, symbol: string, start: int, through: int, bars: seq<Value>, rejections: seq<string>)
    requires c.fetch(symbol) == Fetched(bars, rejections)
    ensures Files(s, Filed(s, z, c, symbol, start, through, bars, |rejections|), z, c, symbol, start, through, bars)
  {
    var inRange, today := Between(bars, start, through), z.localDay(c.now);
    var next := Filed(s, z, c, symbol, start, through, bars, |rejections|);
    AppendedExactlyWhen(s, z, c, bars, start, through);
    var appended := Appended(s, inRange, c.now, today, c.completed);
    if appended.Rejected? {
      assert FailedWith(s, next, symbol, c.now, appended.reason);
    } else {
      var t := appended.value;
      var stored := s.(observations := t.observations, failures := t.failures);
      var counts := Counts(|bars|, |inRange|, |rejections|, t.rejected);
      BetweenShorter(bars, start, through);
      RecordedExactlyWhen(stored, z, symbol, today, start, through, c.completed, c.now, counts);
      var polled := RecordPoll(stored, z, symbol, today, start, through, c.completed, c.now, counts);
      if polled.Rejected? {
        assert FailedWith(stored, next, symbol, c.now, polled.reason);
      }
    }
  }

  /** A cycle attempts its symbols up to the first that loses the source for good, or not at all without one. */
  lemma {:induction false} ReachedExactly(c: Cycle, symbols: seq<string>)
    ensures var n := Reached(c, symbols);
      && (n == 0 <==> symbols == [] || !c.connects)
      && (forall i :: 0 <= i < n - 1 ==> !Loses(c, symbols[i]))
      && (0 < n < |symbols| ==> Loses(c, symbols[n - 1]))
  {
    if symbols != [] && c.connects {
      ReachedFromExactly(c, symbols, 0);
    }
  }

  predicate Loses(c: Cycle, symbol: string) {
    match c.fetch(symbol)
    case Raised(_, reset) => reset && !c.reconnects(symbol)
    case Fetched(_, _) => false
  }

  lemma {:induction false} ReachedFromExactly(c: Cycle, symbols: seq<string>, k: nat)
    requires k < |symbols|
    ensures var n := ReachedFrom(c, symbols, k);
      && (forall i :: k <= i < n - 1 ==> !Loses(c, symbols[i]))
      && (n < |symbols| ==> Loses(c, symbols[n - 1]))
    decreases |symbols| - k
  {
    if !Breaks(c, symbols, k) && k + 1 < |symbols| {
      ReachedFromExactly(c, symbols, k + 1);
    }
  }
}
