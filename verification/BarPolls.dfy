/**
 Poll receipts, their per-symbol cache, which requests are due, and one collection cycle.
 */
module BarPolls {
  import opened Prelude
  import opened LocalTime
  import opened BarFeed

  // ---- the poll cache ---------------------------------------------------------------------------

  function LaterOption(a: Option<int>, b: Option<int>): Option<int> {
    if a == None then b else if b == None then a else Some(Max(a.value, b.value))
  }

  /** The newest success, the earliest start and the latest completed date. */
  function Upsert(previous: Option<Poll>, localDate: int, start: int, at: int, completed: Option<int>): Poll {
    match previous
    case None => Poll(localDate, start, at, completed)
    case Some(p) => Poll(localDate, Min(p.start, start), at, LaterOption(p.completed, completed))
  }

  function Cached(polls: map<string, Poll>, symbol: string): Option<Poll> {
    if symbol in polls then Some(polls[symbol]) else None
  }

  predicate SoundCounts(c: Counts) {
    c.returned >= 0 && c.inRange >= 0 && c.sourceRejected >= 0 && c.invalid >= 0 && c.inRange <= c.returned
  }

  predicate PolledAfter(receipts: seq<Receipt>, now: int) {
    exists i :: 0 <= i < |receipts| && receipts[i].at > now
  }

  function RecordPoll(
    s: Store, z: Zone, symbol: string, localDate: int, start: int, through: int, completed: Option<int>, now: int,
    counts: Counts): Result<Store>
  {
    var r := Receipt(symbol, now, start, through, completed, counts, |s.observations|);
    if !SoundCounts(counts) then Rejected("invalid bar poll receipt counts")
    else if start > through then Rejected("bar poll receipt start date cannot follow through date")
    else if localDate != z.localDay(now) then Rejected("bar poll receipt local date does not match poll timestamp")
    else if completed.Some? && completed.value > localDate then
      Rejected("bar poll receipt completed-through date cannot be in the future")
    else if PolledAfter(s.receipts, now) then Rejected("bar poll receipt time cannot move backwards")
    else if r in s.receipts then Rejected("bar poll receipt already recorded")
    else
      Ok(s.(receipts := s.receipts + [r],
            polls := s.polls[symbol := Upsert(Cached(s.polls, symbol), localDate, start, now, completed)]))
  }

  /**
   A poll is recorded exactly when its counts are sound, its range is one, its day is that of its instant,
   nothing is claimed complete beyond that day, and it is new and not older than any recorded poll; the
   receipt holds what was asked and the number of observations so far.
   */
  lemma {:induction false} RecordedExactlyWhen(
    s: Store, z: Zone, symbol: string, localDate: int, start: int, through: int, completed: Option<int>, now: int,
    counts: Counts)
    ensures var r := Receipt(symbol, now, start, through, completed, counts, |s.observations|);
      var recorded := RecordPoll(s, z, symbol, localDate, start, through, completed, now, counts);
      && (recorded.Ok? <==>
            && 0 <= counts.inRange <= counts.returned && counts.sourceRejected >= 0 && counts.invalid >= 0
            && start <= through && localDate == z.localDay(now)
            && (completed.Some? ==> completed.value <= localDate)
            && (forall i :: 0 <= i < |s.receipts| ==> s.receipts[i].at <= now)
            && r !in s.receipts)
      && (recorded.Ok? ==> recorded.value.receipts == s.receipts + [r])
  {
  }

  /** The cache row that a symbol's receipts imply. */
  function CacheOf(z: Zone, receipts: seq<Receipt>, symbol: string): Option<Poll> {
    if receipts == [] then None
    else
      var earlier, r := CacheOf(z, Init(receipts), symbol), Last(receipts);
      if r.symbol == symbol then Some(Upsert(earlier, z.localDay(r.at), r.start, r.at, r.completed)) else earlier
  }

  ghost predicate CacheIsFold(z: Zone, s: Store) {
    forall symbol :: Cached(s.polls, symbol) == CacheOf(z, s.receipts, symbol)
  }

  predicate ReceiptsInOrder(receipts: seq<Receipt>) {
    forall i, j :: 0 <= i < j < |receipts| ==> receipts[i].at <= receipts[j].at && receipts[i] != receipts[j]
  }

  /** Every recorded poll keeps each cache row equal to the fold of that symbol's receipts. */
  lemma {:induction false} RecordPollKeepsCache(
    s: Store, z: Zone, symbol: string, localDate: int, start: int, through: int, completed: Option<int>, now: int,
    counts: Counts)
    requires CacheIsFold(z, s) && ReceiptsInOrder(s.receipts)
    requires RecordPoll(s, z, symbol, localDate, start, through, completed, now, counts).Ok?
    ensures var next := RecordPoll(s, z, symbol, localDate, start, through, completed, now, counts).value;
      CacheIsFold(z, next) && ReceiptsInOrder(next.receipts) && next.observations == s.observations
        && next.failures == s.failures
  {
    var next := RecordPoll(s, z, symbol, localDate, start, through, completed, now, counts).value;
    assert Init(next.receipts) == s.receipts;
    forall t ensures Cached(next.polls, t) == CacheOf(z, next.receipts, t) {
      assert Cached(s.polls, t) == CacheOf(z, s.receipts, t);
    }
  }

  /** What the fold means: the earliest start, the latest completed date and the newest success of all receipts. */
  lemma {:induction false} CacheBounds(z: Zone, receipts: seq<Receipt>, symbol: string, i: nat)
    requires ReceiptsInOrder(receipts) && i < |receipts| && receipts[i].symbol == symbol
    ensures var p := CacheOf(z, receipts, symbol);
      && p.Some?
      && p.value.start <= receipts[i].start && p.value.at >= receipts[i].at
      && (receipts[i].completed.Some? ==>
            p.value.completed.Some? && p.value.completed.value >= receipts[i].completed.value)
  {
    if i < |receipts| - 1 {
      assert Init(receipts)[i] == receipts[i];
      CacheBounds(z, Init(receipts), symbol, i);
    }
  }

  predicate Witnesses(z: Zone, r: Receipt, symbol: string, p: Poll, column: nat) {
    && r.symbol == symbol
    && (column == 0 ==> r.start == p.start)
    && (column == 1 ==> r.at == p.at && z.localDay(r.at) == p.localDate)
    && (column == 2 ==> r.completed == p.completed)
  }

  /** Each cached column comes from some receipt of the symbol. */
  lemma {:induction false} CacheIsWitnessed(z: Zone, receipts: seq<Receipt>, symbol: string, column: nat)
    requires CacheOf(z, receipts, symbol).Some?
    ensures exists i ::
      0 <= i < |receipts| && Witnesses(z, receipts[i], symbol, CacheOf(z, receipts, symbol).value, column)
  {
    var last, p := |receipts| - 1, CacheOf(z, receipts, symbol).value;
    if !Witnesses(z, receipts[last], symbol, p, column) {
      var earlier := CacheOf(z, Init(receipts), symbol);
      CacheIsWitnessed(z, Init(receipts), symbol, column);
      var i :| 0 <= i < last && Witnesses(z, Init(receipts)[i], symbol, earlier.value, column);
      assert receipts[i] == Init(receipts)[i];
      assert Witnesses(z, receipts[i], symbol, p, column);
    }
  }

  // ---- requests ---------------------------------------------------------------------------------------

  datatype Request = Request(symbol: string, start: int, through: int)

  function Earliest(requests: seq<Request>, symbol: string): Option<int> {
    if requests == [] then None
    else
      var earlier, r := Earliest(Init(requests), symbol), Last(requests);
      if r.symbol != symbol then earlier
      else if earlier == None then Some(r.start)
      else Some(Min(earlier.value, r.start))
  }

  function Latest(requests: seq<Request>, symbol: string): Option<int> {
    if requests == [] then None
    else
      var earlier, r := Latest(Init(requests), symbol), Last(requests);
      if r.symbol != symbol then earlier
      else if earlier == None then Some(r.through)
      else Some(Max(earlier.value, r.through))
  }

  /** Requests whose last day has no observation yet. */
  function Unmet(requests: seq<Request>, xs: seq<Observation>): seq<Request> {
    if requests == [] then []
    else
      Unmet(Init(requests), xs)
      + if HasPair(xs, Last(requests).symbol, Last(requests).through) then [] else [Last(requests)]
  }

  /** A symbol to poll: never polled, not today, not far enough back, or not for the completed day. */
  predicate IsDue(p: Option<Poll>, earliest: int, latest: int, asOf: int, completed: Option<int>) {
    || p == None
    || p.value.localDate < asOf
    || earliest < p.value.start
    || (completed.Some? && earliest <= completed.value <= latest
        && (p.value.completed == None || p.value.completed.value < completed.value))
  }

  predicate SymbolDue(s: Store, unmet: seq<Request>, symbol: string, asOf: int, completed: Option<int>) {
    Earliest(unmet, symbol).Some? && Latest(unmet, symbol).Some?
    && IsDue(Cached(s.polls, symbol), Earliest(unmet, symbol).value, Latest(unmet, symbol).value, asOf, completed)
  }

  function DueAmong(
    s: Store, unmet: seq<Request>, requests: seq<Request>, asOf: int, completed: Option<int>): seq<Request>
  {
    if requests == [] then []
    else
      DueAmong(s, unmet, Init(requests), asOf, completed)
      + if SymbolDue(s, unmet, Last(requests).symbol, asOf, completed) then [Last(requests)] else []
  }

  function Pending(s: Store, requests: seq<Request>, asOf: int, completed: Option<int>): seq<Request> {
    var unmet := Unmet(requests, s.observations);
    DueAmong(s, unmet, unmet, asOf, completed)
  }

  lemma {:induction false} BoundsKnown(requests: seq<Request>, symbol: string)
    ensures Earliest(requests, symbol).Some? <==> Latest(requests, symbol).Some?
    ensures Earliest(requests, symbol).Some? <==> exists i :: 0 <= i < |requests| && requests[i].symbol == symbol
  {
    if requests != [] {
      BoundsKnown(Init(requests), symbol);
      if exists i :: 0 <= i < |Init(requests)| && Init(requests)[i].symbol == symbol {
        var i :| 0 <= i < |Init(requests)| && Init(requests)[i].symbol == symbol;
        assert requests[i].symbol == symbol;
      }
      if exists i :: 0 <= i < |requests| && requests[i].symbol == symbol {
        var i :| 0 <= i < |requests| && requests[i].symbol == symbol;
        assert i < |requests| - 1 ==> Init(requests)[i].symbol == symbol;
      }
    }
  }

  /** Two dictionaries hold the earliest start and the latest day of every symbol asked for. */
  method PendingRequests(
    s: Store, requests: seq<Request>, asOf: int, completed: Option<int>) returns (due: seq<Request>)
    ensures due == Pending(s, requests, asOf, completed)
  {
    var unmet := Unmet(requests, s.observations);
    var earliest: map<string, int>, latest: map<string, int> := map[], map[];
    for i := 0 to |unmet|
      invariant forall t :: (if t in earliest then Some(earliest[t]) else None) == Earliest(unmet[..i], t)
      invariant forall t :: (if t in latest then Some(latest[t]) else None) == Latest(unmet[..i], t)
    {
      var r := unmet[i];
      assert Init(unmet[..i + 1]) == unmet[..i] && Last(unmet[..i + 1]) == r;
      assert (if r.symbol in earliest then Some(earliest[r.symbol]) else None) == Earliest(unmet[..i], r.symbol);
      assert (if r.symbol in latest then Some(latest[r.symbol]) else None) == Latest(unmet[..i], r.symbol);
      earliest := earliest[r.symbol := Min(r.start, if r.symbol in earliest then earliest[r.symbol] else r.start)];
      latest := latest[r.symbol := Max(r.through, if r.symbol in latest then latest[r.symbol] else r.through)];
    }
    assert unmet[..|unmet|] == unmet;
    due := [];
    for i := 0 to |unmet|
      invariant due == DueAmong(s, unmet, unmet[..i], asOf, completed)
    {
      var symbol := unmet[i].symbol;
      assert Init(unmet[..i + 1]) == unmet[..i] && Last(unmet[..i + 1]) == unmet[i];
      BoundsKnown(unmet, symbol);
      assert (if symbol in earliest then Some(earliest[symbol]) else None) == Earliest(unmet, symbol);
      assert (if symbol in latest then Some(latest[symbol]) else None) == Latest(unmet, symbol);
      if IsDue(Cached(s.polls, symbol), earliest[symbol], latest[symbol], asOf, completed) {
        due := due + [unmet[i]];
      }
    }
  }

  lemma {:induction false} BoundsAreExtremes(requests: seq<Request>, symbol: string, i: nat)
    requires i < |requests| && requests[i].symbol == symbol
    ensures Earliest(requests, symbol).Some? && Latest(requests, symbol).Some?
    ensures Earliest(requests, symbol).value <= requests[i].start
    ensures Latest(requests, symbol).value >= requests[i].through
  {
    if i < |requests| - 1 {
      assert Init(requests)[i] == requests[i];
      BoundsAreExtremes(Init(requests), symbol, i);
    }
  }

  lemma {:induction false} BoundsAreAttained(requests: seq<Request>, symbol: string) returns (i: nat, j: nat)
    requires Earliest(requests, symbol).Some? && Latest(requests, symbol).Some?
    ensures i < |requests| && requests[i].symbol == symbol && Earliest(requests, symbol) == Some(requests[i].start)
    ensures j < |requests| && requests[j].symbol == symbol && Latest(requests, symbol) == Some(requests[j].through)
  {
    var last, before := |requests| - 1, Init(requests);
    BoundsKnown(before, symbol);
    i, j := last, last;
    if requests[last].symbol != symbol || Earliest(before, symbol).Some? {
      var k, l := BoundsAreAttained(before, symbol);
      if Earliest(requests, symbol) == Earliest(before, symbol) {
        i := k;
      }
      if Latest(requests, symbol) == Latest(before, symbol) {
        j := l;
      }
    }
  }

  lemma {:induction false} UnmetExactly(requests: seq<Request>, xs: seq<Observation>, r: Request)
    ensures r in Unmet(requests, xs) <==> r in requests && !HasPair(xs, r.symbol, r.through)
  {
    if requests != [] {
      UnmetExactly(Init(requests), xs, r);
      assert requests == Init(requests) + [Last(requests)];
    }
  }

  lemma {:induction false} DueAmongExactly(
    s: Store, unmet: seq<Request>, requests: seq<Request>, asOf: int, completed: Option<int>, r: Request)
    ensures r in DueAmong(s, unmet, requests, asOf, completed) <==>
      r in requests && SymbolDue(s, unmet, r.symbol, asOf, completed)
  {
    if requests != [] {
      DueAmongExactly(s, unmet, Init(requests), asOf, completed, r);
      assert requests == Init(requests) + [Last(requests)];
    }
  }

  /** A request whose last day has no observation. */
  predicate Open(s: Store, requests: seq<Request>, r: Request) {
    && r in requests
    && forall i :: 0 <= i < |s.observations| ==>
         s.observations[i].value.symbol != r.symbol || s.observations[i].value.day != r.through
  }

  /** Some open request of the symbol starts by a day. */
  ghost predicate SomeStarts(s: Store, requests: seq<Request>, symbol: string, day: int) {
    exists q :: Open(s, requests, q) && q.symbol == symbol && q.start <= day
  }

  /** Some open request of the symbol reaches a day. */
  ghost predicate SomeReaches(s: Store, requests: seq<Request>, symbol: string, day: int) {
    exists q :: Open(s, requests, q) && q.symbol == symbol && day <= q.through
  }

  lemma {:induction false} UnmetIsOpen(s: Store, requests: seq<Request>, q: Request)
    ensures q in Unmet(requests, s.observations) <==> Open(s, requests, q)
  {
    UnmetExactly(requests, s.observations, q);
  }

  lemma {:induction false} BoundsMeet(s: Store, requests: seq<Request>, symbol: string, day: int)
    requires Earliest(Unmet(requests, s.observations), symbol).Some?
    requires Latest(Unmet(requests, s.observations), symbol).Some?
    ensures Earliest(Unmet(requests, s.observations), symbol).value <= day <==> SomeStarts(s, requests, symbol, day)
    ensures day <= Latest(Unmet(requests, s.observations), symbol).value <==> SomeReaches(s, requests, symbol, day)
  {
    var unmet := Unmet(requests, s.observations);
    var i, j := BoundsAreAttained(unmet, symbol);
    UnmetIsOpen(s, requests, unmet[i]);
    UnmetIsOpen(s, requests, unmet[j]);
    forall q | Open(s, requests, q) && q.symbol == symbol
      ensures Earliest(unmet, symbol).value <= q.start && q.through <= Latest(unmet, symbol).value
    {
      UnmetIsOpen(s, requests, q);
      var l :| 0 <= l < |unmet| && unmet[l] == q;
      BoundsAreExtremes(unmet, symbol, l);
    }
  }

  /**
   An open request is polled exactly if its symbol was never polled, or not since the day began, or not
   back to the start of one of its open requests, or not for the completed day although open requests
   reach from before it to beyond it.
   */
  lemma {:induction false} PendingExactlyWhen(
    s: Store, requests: seq<Request>, asOf: int, completed: Option<int>, r: Request)
    ensures r in Pending(s, requests, asOf, completed) <==>
      && Open(s, requests, r)
      && (|| r.symbol !in s.polls
          || s.polls[r.symbol].localDate < asOf
          || SomeStarts(s, requests, r.symbol, s.polls[r.symbol].start - 1)
          || (&& completed.Some?
              && SomeStarts(s, requests, r.symbol, completed.value)
              && SomeReaches(s, requests, r.symbol, completed.value)
              && (s.polls[r.symbol].completed == None || s.polls[r.symbol].completed.value < completed.value)))
  {
    var unmet, symbol := Unmet(requests, s.observations), r.symbol;
    UnmetIsOpen(s, requests, r);
    DueAmongExactly(s, unmet, unmet, asOf, completed, r);
    if Open(s, requests, r) {
      var k :| 0 <= k < |unmet| && unmet[k] == r;
      BoundsAreExtremes(unmet, symbol, k);
      if symbol in s.polls {
        BoundsMeet(s, requests, symbol, s.polls[symbol].start - 1);
      }
      if completed.Some? {
        BoundsMeet(s, requests, symbol, completed.value);
      }
    }
  }

  /** A symbol polled today over all its unmet requests is not due again today. */
  lemma {:induction false} PolledIsNotDue(
    s: Store, z: Zone, unmet: seq<Request>, symbol: string, asOf: int, completed: Option<int>, now: int, counts: Counts)
    requires Earliest(unmet, symbol).Some? && Latest(unmet, symbol).Some?
    requires RecordPoll(
      s, z, symbol, asOf, Earliest(unmet, symbol).value, Latest(unmet, symbol).value, completed, now, counts).Ok?
    ensures var next := RecordPoll(
      s, z, symbol, asOf, Earliest(unmet, symbol).value, Latest(unmet, symbol).value, completed, now, counts).value;
      !SymbolDue(next, unmet, symbol, asOf, completed)
  {
  }
}
