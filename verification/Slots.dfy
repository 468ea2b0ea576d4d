/**
 Fitting overlapping strategy positions into a fixed number of slots, and into one position per
 symbol.  Dates and instants are integers.
 */
module Slots {
  import opened Prelude
  import Sorting

  datatype Position = Position(
    symbol: string, entry: int, exit: int, signalAt: int, packet: string, net: real, alpha: real)

  /** Entry date, then signal time, then packet id. */
  function Order(): (Position, Position) -> bool {
    (a: Position, b: Position) =>
      if a.entry != b.entry then a.entry < b.entry
      else if a.signalAt != b.signalAt then a.signalAt < b.signalAt
      else Sorting.TextLeq(a.packet, b.packet)
  }

  lemma {:induction false} OrderIsTotal()
    ensures Sorting.TotalPreorder(Order())
  {
    var leq := Order();
    forall a, b ensures leq(a, b) || leq(b, a) {
      Sorting.TextTotal(a.packet, b.packet);
    }
    forall a, b, c | leq(a, b) && leq(b, c) ensures leq(a, c) {
      if Sorting.TextLeq(a.packet, b.packet) && Sorting.TextLeq(b.packet, c.packet) {
        Sorting.TextTransitive(a.packet, b.packet, c.packet);
      }
    }
  }

  /** Positions are offered by entry date, among equals by signal time, and then by packet id. */
  lemma {:induction false} OfferedInOrder(xs: seq<Position>, i: nat, j: nat)
    requires i < j < |Sorting.Sort(Order(), xs)|
    ensures var a, b := Sorting.Sort(Order(), xs)[i], Sorting.Sort(Order(), xs)[j];
      && a.entry <= b.entry
      && (a.entry == b.entry ==> a.signalAt <= b.signalAt)
      && (a.entry == b.entry && a.signalAt == b.signalAt ==> Sorting.TextLeq(a.packet, b.packet))
  {
    OrderIsTotal();
    Sorting.SortSorts(Order(), xs);
  }

  predicate EntriesAscend(xs: seq<Position>) {
    forall i, j :: 0 <= i < j < |xs| ==> xs[i].entry <= xs[j].entry
  }

  lemma {:induction false} SortedEntriesAscend(xs: seq<Position>)
    ensures EntriesAscend(Sorting.Sort(Order(), xs))
  {
    OrderIsTotal();
    Sorting.SortSorts(Order(), xs);
  }

  // ---- a fixed number of slots ------------------------------------------------------------------

  function StillOpen(xs: seq<Position>, day: int): seq<Position> {
    if xs == [] then [] else StillOpen(Init(xs), day) + if Last(xs).exit >= day then [Last(xs)] else []
  }

  function ActiveOn(xs: seq<Position>, day: int): seq<Position> {
    if xs == [] then [] else ActiveOn(Init(xs), day) + if Last(xs).entry <= day <= Last(xs).exit then [Last(xs)] else []
  }

  datatype Book = Book(active: seq<Position>, retained: seq<Position>, skipped: seq<Position>)

  function Admit(b: Book, o: Position, slots: nat): Book {
    var open := StillOpen(b.active, o.entry);
    if |open| >= slots then Book(open, b.retained, b.skipped + [o])
    else Book(open + [o], b.retained + [o], b.skipped)
  }

  function Scheduled(xs: seq<Position>, slots: nat): Book {
    if xs == [] then Book([], [], []) else Admit(Scheduled(Init(xs), slots), Last(xs), slots)
  }

  lemma {:induction false} OpenTwice(xs: seq<Position>, a: int, b: int)
    requires a <= b
    ensures StillOpen(StillOpen(xs, a), b) == StillOpen(xs, b)
  {
    if xs != [] {
      OpenTwice(Init(xs), a, b);
      OpenAppend(StillOpen(Init(xs), a), Last(xs), b);
      assert StillOpen(Init(xs), a) + [] == StillOpen(Init(xs), a);
      assert StillOpen(Init(xs), b) + [] == StillOpen(Init(xs), b);
    }
  }

  lemma {:induction false} OpenAppend(xs: seq<Position>, o: Position, day: int)
    ensures StillOpen(xs + [o], day) == StillOpen(xs, day) + if o.exit >= day then [o] else []
    ensures ActiveOn(xs + [o], day) == ActiveOn(xs, day) + if o.entry <= day <= o.exit then [o] else []
  {
    assert Init(xs + [o]) == xs;
  }

  lemma {:induction false} ActiveAreOpen(xs: seq<Position>, day: int)
    ensures |ActiveOn(xs, day)| <= |StillOpen(xs, day)|
    ensures (forall i :: 0 <= i < |xs| ==> xs[i].entry <= day) ==> ActiveOn(xs, day) == StillOpen(xs, day)
  {
    if xs != [] {
      ActiveAreOpen(Init(xs), day);
      assert forall i :: 0 <= i < |xs| - 1 ==> Init(xs)[i] == xs[i];
    }
  }

  lemma {:induction false} OpenShrinks(xs: seq<Position>, a: int, b: int)
    requires a <= b
    ensures |StillOpen(xs, b)| <= |StillOpen(xs, a)|
  {
    if xs != [] {
      OpenShrinks(Init(xs), a, b);
    }
  }

  /** The working list is as good as all retained positions from the last entry on. */
  ghost predicate Tracks(b: Book, last: int, slots: nat) {
    && (forall i :: 0 <= i < |b.retained| ==> b.retained[i].entry <= last)
    && (forall day :: day >= last ==> StillOpen(b.active, day) == StillOpen(b.retained, day))
    && (forall day :: |ActiveOn(b.retained, day)| <= slots)
  }

  lemma {:induction false} AdmitTracks(b: Book, last: int, o: Position, slots: nat)
    requires Tracks(b, last, slots) && o.entry >= last
    ensures Tracks(Admit(b, o, slots), o.entry, slots)
    ensures Admit(b, o, slots).skipped != b.skipped ==> |ActiveOn(b.retained, o.entry)| == slots
  {
    var next, open := Admit(b, o, slots), StillOpen(b.active, o.entry);
    assert open == StillOpen(b.retained, o.entry);
    ActiveAreOpen(b.retained, o.entry);
    forall day | day >= o.entry ensures StillOpen(next.active, day) == StillOpen(next.retained, day) {
      OpenTwice(b.active, o.entry, day);
      OpenAppend(open, o, day);
      OpenAppend(b.retained, o, day);
    }
    forall day ensures |ActiveOn(next.retained, day)| <= slots {
      OpenAppend(b.retained, o, day);
      if next.retained != b.retained && day >= o.entry {
        OpenShrinks(b.retained, o.entry, day);
        ActiveAreOpen(b.retained, day);
      }
    }
  }

  lemma {:induction false} ScheduledTracks(xs: seq<Position>, slots: nat)
    requires xs != [] && EntriesAscend(xs)
    ensures Tracks(Scheduled(xs, slots), Last(xs).entry, slots)
  {
    if |xs| == 1 {
      assert Scheduled(Init(xs), slots) == Book([], [], []);
      AdmitTracks(Book([], [], []), xs[0].entry, xs[0], slots);
    } else {
      ScheduledTracks(Init(xs), slots);
      AdmitTracks(Scheduled(Init(xs), slots), Last(Init(xs)).entry, Last(xs), slots);
    }
  }

  /** On every date at most the given number of retained positions is active. */
  lemma {:induction false} SlotsAreNeverExceeded(xs: seq<Position>, slots: nat, day: int)
    requires EntriesAscend(xs)
    ensures |ActiveOn(Scheduled(xs, slots).retained, day)| <= slots
  {
    if xs != [] {
      ScheduledTracks(xs, slots);
    }
  }

  lemma {:induction false} RetainedOnlyGrow(xs: seq<Position>, slots: nat, n: nat)
    requires n <= |xs|
    ensures Scheduled(xs[..n], slots).retained <= Scheduled(xs, slots).retained
  {
    if n == |xs| {
      assert xs[..n] == xs;
    } else {
      assert Init(xs)[..n] == xs[..n];
      RetainedOnlyGrow(Init(xs), slots, n);
    }
  }

  lemma {:induction false} MoreIsMore(xs: seq<Position>, ys: seq<Position>, day: int)
    requires xs <= ys
    ensures |ActiveOn(xs, day)| <= |ActiveOn(ys, day)|
  {
    if xs != ys {
      assert xs <= Init(ys);
      MoreIsMore(xs, Init(ys), day);
    }
  }

  /** Every skipped position finds exactly all slots taken on its entry date, then and in the end. */
  lemma {:induction false} SkippedFindsAllTaken(xs: seq<Position>, slots: nat, o: Position)
    requires EntriesAscend(xs) && o in Scheduled(xs, slots).skipped
    ensures |ActiveOn(Scheduled(xs, slots).retained, o.entry)| == slots
  {
    var b := Scheduled(Init(xs), slots);
    SlotsAreNeverExceeded(xs, slots, o.entry);
    if o in b.skipped {
      SkippedFindsAllTaken(Init(xs), slots, o);
      MoreIsMore(b.retained, Scheduled(xs, slots).retained, o.entry);
    } else {
      if |xs| > 1 {
        ScheduledTracks(Init(xs), slots);
        AdmitTracks(b, Last(Init(xs)).entry, Last(xs), slots);
      } else {
        AdmitTracks(Book([], [], []), xs[0].entry, xs[0], slots);
      }
    }
  }

  /** Nothing is invented or lost. */
  lemma {:induction false} RetainedOrSkipped(xs: seq<Position>, slots: nat)
    ensures var b := Scheduled(xs, slots);
      multiset(b.retained) + multiset(b.skipped) == multiset(xs) && |b.retained| + |b.skipped| == |xs|
  {
    if xs != [] {
      RetainedOrSkipped(Init(xs), slots);
      assert xs == Init(xs) + [Last(xs)];
    }
  }

  method FixedSlotSchedule(observations: seq<Position>, slots: int) returns (r: Result<Book>)
    ensures r.Rejected? <==> slots <= 0
    ensures r.Ok? ==> r.value == Scheduled(Sorting.Sort(Order(), observations), slots)
    ensures r.Ok? ==> forall day :: |ActiveOn(r.value.retained, day)| <= slots
    ensures r.Ok? ==> forall o :: o in r.value.skipped ==> |ActiveOn(r.value.retained, o.entry)| == slots
    ensures r.Ok? ==> multiset(r.value.retained) + multiset(r.value.skipped) == multiset(observations)
  {
    if slots <= 0 {
      return Rejected("slots must be positive");
    }
    var sorted := Sorting.Sort(Order(), observations);
    var active: seq<Position>, retained: seq<Position>, skipped: seq<Position> := [], [], [];
    for i := 0 to |sorted|
      invariant Book(active, retained, skipped) == Scheduled(sorted[..i], slots)
    {
      assert Init(sorted[..i + 1]) == sorted[..i] && Last(sorted[..i + 1]) == sorted[i];
      active := StillOpen(active, sorted[i].entry);
      if |active| >= slots {
        skipped := skipped + [sorted[i]];
        continue;
      }
      active := active + [sorted[i]];
      retained := retained + [sorted[i]];
    }
    assert sorted[..|sorted|] == sorted;
    SortedEntriesAscend(observations);
    forall day ensures |ActiveOn(retained, day)| <= slots {
      SlotsAreNeverExceeded(sorted, slots, day);
    }
    forall o | o in skipped ensures |ActiveOn(retained, o.entry)| == slots {
      SkippedFindsAllTaken(sorted, slots, o);
    }
    RetainedOrSkipped(sorted, slots);
    Sorting.SortContents(Order(), observations);
    return Ok(Book(active, retained, skipped));
  }

  // ---- what the retained positions earned ------------------------------------------------------------

  function ByExit(): (Position, Position) -> bool {
    (a: Position, b: Position) => if a.exit != b.exit then a.exit < b.exit else Sorting.TextLeq(a.packet, b.packet)
  }

  function Sum(xs: seq<Position>, value: Position -> real): real {
    if xs == [] then 0.0 else Sum(Init(xs), value) + value(Last(xs))
  }

  function Net(): Position -> real {
    (o: Position) => o.net
  }

  function Alpha(): Position -> real {
    (o: Position) => o.alpha
  }

  lemma {:induction false} ByExitIsTotal()
    ensures Sorting.TotalPreorder(ByExit())
  {
    var leq := ByExit();
    forall a, b ensures leq(a, b) || leq(b, a) {
      Sorting.TextTotal(a.packet, b.packet);
    }
    forall a, b, c | leq(a, b) && leq(b, c) ensures leq(a, c) {
      if Sorting.TextLeq(a.packet, b.packet) && Sorting.TextLeq(b.packet, c.packet) {
        Sorting.TextTransitive(a.packet, b.packet, c.packet);
      }
    }
  }

  /** Positions close by exit date, among equals by packet id. */
  lemma {:induction false} ClosedInOrder(xs: seq<Position>, i: nat, j: nat)
    requires i < j < |Sorting.Sort(ByExit(), xs)|
    ensures var a, b := Sorting.Sort(ByExit(), xs)[i], Sorting.Sort(ByExit(), xs)[j];
      a.exit <= b.exit && (a.exit == b.exit ==> Sorting.TextLeq(a.packet, b.packet))
  {
    ByExitIsTotal();
    Sorting.SortSorts(ByExit(), xs);
  }

  function TotalNet(xs: seq<Position>): real {
    if xs == [] then 0.0 else xs[0].net + TotalNet(xs[1..])
  }

  function TotalAlpha(xs: seq<Position>): real {
    if xs == [] then 0.0 else xs[0].alpha + TotalAlpha(xs[1..])
  }

  /** The means are those of the net returns and of the alphas. */
  lemma {:induction false} MeansAreAverages(xs: seq<Position>)
    ensures Mean(xs, Net()) == None <==> xs == []
    ensures Mean(xs, Alpha()) == None <==> xs == []
    ensures xs != [] ==> Mean(xs, Net()).value * |xs| as real == TotalNet(xs)
    ensures xs != [] ==> Mean(xs, Alpha()).value * |xs| as real == TotalAlpha(xs)
  {
    SumsAreTotals(xs);
  }

  lemma {:induction false} SumsAreTotals(xs: seq<Position>)
    ensures Sum(xs, Net()) == TotalNet(xs) && Sum(xs, Alpha()) == TotalAlpha(xs)
  {
    if xs != [] {
      SumFront(xs[0], xs[1..], Net());
      SumFront(xs[0], xs[1..], Alpha());
      assert [xs[0]] + xs[1..] == xs;
      SumsAreTotals(xs[1..]);
    }
  }

  /** Each closed position adds its return on one slot's share of the starting capital. */
  function Equity(xs: seq<Position>, slots: nat): real
    requires slots > 0
  {
    if xs == [] then 1.0 else Equity(Init(xs), slots) + Last(xs).net / slots as real
  }

  function Peak(xs: seq<Position>, slots: nat): (peak: real)
    requires slots > 0
    ensures peak >= 1.0 && peak >= Equity(xs, slots)
  {
    if xs == [] then 1.0
    else if Peak(Init(xs), slots) >= Equity(xs, slots) then Peak(Init(xs), slots) else Equity(xs, slots)
  }

  /** How far below its peak the equity stands now. */
  function Fall(xs: seq<Position>, slots: nat): real
    requires slots > 0
  {
    (Peak(xs, slots) - Equity(xs, slots)) / Peak(xs, slots)
  }

  function Drawdown(xs: seq<Position>, slots: nat): real
    requires slots > 0
  {
    if xs == [] || Drawdown(Init(xs), slots) >= Fall(xs, slots) then
      if xs == [] then 0.0 else Drawdown(Init(xs), slots)
    else Fall(xs, slots)
  }

  lemma {:induction false} SumInsert(
    leq: (Position, Position) -> bool, x: Position, xs: seq<Position>, value: Position -> real)
    ensures Sum(Sorting.Insert(leq, x, xs), value) == value(x) + Sum(xs, value)
  {
    if xs == [] || leq(x, xs[0]) {
      SumFront(x, xs, value);
    } else {
      SumInsert(leq, x, xs[1..], value);
      SumFront(xs[0], Sorting.Insert(leq, x, xs[1..]), value);
      SumFront(xs[0], xs[1..], value);
      assert xs == [xs[0]] + xs[1..];
    }
  }

  lemma {:induction false} SumFront(x: Position, xs: seq<Position>, value: Position -> real)
    ensures Sum([x] + xs, value) == value(x) + Sum(xs, value)
  {
    if xs == [] {
      assert [x] + xs == [x] && Init([x]) == [];
    } else {
      SumFront(x, Init(xs), value);
      assert Init([x] + xs) == [x] + Init(xs);
    }
  }

  lemma {:induction false} SumIgnoresOrder(
    leq: (Position, Position) -> bool, xs: seq<Position>, value: Position -> real)
    ensures Sum(Sorting.Sort(leq, xs), value) == Sum(xs, value)
  {
    if xs != [] {
      SumIgnoresOrder(leq, xs[1..], value);
      SumInsert(leq, xs[0], Sorting.Sort(leq, xs[1..]), value);
      SumFront(xs[0], xs[1..], value);
      assert xs == [xs[0]] + xs[1..];
    }
  }

  /** The realized return is the average per slot, in whatever order positions close. */
  lemma {:induction false} EquityIsSum(xs: seq<Position>, slots: nat)
    requires slots > 0
    ensures Equity(xs, slots) == 1.0 + Sum(xs, Net()) / slots as real
  {
    if xs != [] {
      EquityIsSum(Init(xs), slots);
      SharesAdd(Sum(Init(xs), Net()), Last(xs).net, slots as real);
    }
  }

  lemma {:induction false} SharesAdd(a: real, b: real, c: real)
    requires c > 0.0
    ensures (a + b) / c == a / c + b / c
  {
    assert (a / c + b / c) * c == a / c * c + b / c * c;
  }

  lemma {:induction false} FallSigns(xs: seq<Position>, slots: nat)
    requires slots > 0
    ensures Fall(xs, slots) >= 0.0
    ensures Fall(xs, slots) == 0.0 <==> Equity(xs, slots) == Peak(xs, slots)
    ensures Fall(xs, slots) < 1.0 <==> Equity(xs, slots) > 0.0
  {
    RelativeFall(Peak(xs, slots), Equity(xs, slots), Fall(xs, slots));
  }

  lemma {:induction false} RelativeFall(peak: real, equity: real, fall: real)
    requires peak >= 1.0 && peak >= equity && fall == (peak - equity) / peak
    ensures fall >= 0.0
    ensures fall == 0.0 <==> equity == peak
    ensures fall < 1.0 <==> equity > 0.0
  {
    assert fall * peak == peak - equity;
    var left := 1.0 - fall;
    assert left * peak == peak - fall * peak == equity;
    ProductSign(fall, peak);
    ProductSign(left, peak);
  }

  lemma {:induction false} ProductSign(a: real, b: real)
    requires b > 0.0
    ensures a > 0.0 <==> a * b > 0.0
    ensures a < 0.0 <==> a * b < 0.0
  {
    if a > 0.0 {
      assert a * b > 0.0;
    } else if a < 0.0 {
      assert (-a) * b > 0.0;
    }
  }

  /** The drawdown is the deepest fall at any close. */
  lemma {:induction false} DrawdownIsDeepest(xs: seq<Position>, slots: nat)
    requires slots > 0
    ensures Drawdown(xs, slots) >= 0.0
    ensures forall n :: 0 <= n <= |xs| ==> Fall(xs[..n], slots) <= Drawdown(xs, slots)
    ensures exists n :: 0 <= n <= |xs| && Fall(xs[..n], slots) == Drawdown(xs, slots)
  {
    assert xs[..|xs|] == xs;
    if xs == [] {
      FallSigns(xs, slots);
      assert Fall(xs[..0], slots) == 0.0;
    } else {
      var rest := Init(xs);
      DrawdownIsDeepest(rest, slots);
      assert forall n :: 0 <= n <= |rest| ==> xs[..n] == rest[..n];
      FallSigns(xs, slots);
      var n :| 0 <= n <= |rest| && Fall(rest[..n], slots) == Drawdown(rest, slots);
      assert Fall(xs[..n], slots) == Drawdown(rest, slots);
    }
  }

  lemma {:induction false} RisingIsPeak(xs: seq<Position>, slots: nat)
    requires slots > 0 && forall i :: 0 <= i < |xs| ==> xs[i].net >= 0.0
    ensures Equity(xs, slots) == Peak(xs, slots) && Drawdown(xs, slots) == 0.0
  {
    if xs != [] {
      RisingIsPeak(Init(xs), slots);
      ShareSign(Last(xs).net, slots);
      FallSigns(xs, slots);
    }
  }

  lemma {:induction false} ShareSign(net: real, slots: nat)
    requires slots > 0
    ensures net / slots as real < 0.0 <==> net < 0.0
  {
    var share := net / slots as real;
    assert share * slots as real == net;
    if share >= 0.0 {
      assert share * slots as real >= 0.0;
    } else {
      assert -share * slots as real > 0.0;
    }
  }

  /** There is no drawdown exactly when no retained position lost money. */
  lemma {:induction false} NoDrawdownExactlyWhen(xs: seq<Position>, slots: nat)
    requires slots > 0
    ensures Drawdown(xs, slots) == 0.0 <==> forall i :: 0 <= i < |xs| ==> xs[i].net >= 0.0
  {
    if forall i :: 0 <= i < |xs| ==> xs[i].net >= 0.0 {
      RisingIsPeak(xs, slots);
    } else {
      var i :| 0 <= i < |xs| && xs[i].net < 0.0;
      DrawdownIsDeepest(xs, slots);
      LossIsFall(xs[..i + 1], slots);
    }
  }

  lemma {:induction false} LossIsFall(xs: seq<Position>, slots: nat)
    requires slots > 0 && xs != [] && Last(xs).net < 0.0
    ensures Fall(xs, slots) > 0.0
  {
    ShareSign(Last(xs).net, slots);
    FallSigns(xs, slots);
  }

  /** The drawdown stays below the whole peak exactly while the equity stays positive. */
  lemma {:induction false} DrawdownBelowOneExactlyWhen(xs: seq<Position>, slots: nat)
    requires slots > 0
    ensures Drawdown(xs, slots) < 1.0 <==> forall n :: 0 <= n <= |xs| ==> Equity(xs[..n], slots) > 0.0
  {
    DrawdownIsDeepest(xs, slots);
    forall n | 0 <= n <= |xs| ensures Fall(xs[..n], slots) < 1.0 <==> Equity(xs[..n], slots) > 0.0 {
      FallSigns(xs[..n], slots);
    }
  }

  datatype Summary = Summary(
    slots: int, candidates: nat, retained: nat, skipped: nat, realized: real, drawdown: real, meanReturn: Option<real>,
    meanAlpha: Option<real>)

  function Mean(xs: seq<Position>, value: Position -> real): Option<real> {
    if xs == [] then None else Some(Sum(xs, value) / |xs| as real)
  }

  /** Follows the equity and its peak from close to close. */
  method Realize(closing: seq<Position>, slots: nat) returns (equity: real, deepest: real)
    requires slots > 0
    ensures equity == Equity(closing, slots) && deepest == Drawdown(closing, slots)
  {
    var peak := 1.0;
    equity, deepest := 1.0, 0.0;
    for i := 0 to |closing|
      invariant equity == Equity(closing[..i], slots) && peak == Peak(closing[..i], slots)
      invariant deepest == Drawdown(closing[..i], slots)
    {
      assert Init(closing[..i + 1]) == closing[..i] && Last(closing[..i + 1]) == closing[i];
      equity := equity + closing[i].net / slots as real;
      peak := if peak >= equity then peak else equity;
      var fall := (peak - equity) / peak;
      deepest := if deepest >= fall then deepest else fall;
    }
    assert closing[..|closing|] == closing;
  }

  /** The retained positions close in exit order; each earns its return on one slot. */
  method FixedSlotSummary(observations: seq<Position>, slots: int) returns (r: Result<Summary>)
    ensures r.Rejected? <==> slots <= 0
    ensures r.Ok? ==>
      var kept := Scheduled(Sorting.Sort(Order(), observations), slots).retained;
      && r.value.candidates == |observations| == r.value.retained + r.value.skipped
      && r.value.retained == |kept|
      && r.value.realized == Sum(kept, Net()) / slots as real
      && r.value.drawdown == Drawdown(Sorting.Sort(ByExit(), kept), slots)
      && (r.value.drawdown == 0.0 <==> forall o :: o in kept ==> o.net >= 0.0)
      && r.value.meanReturn == Mean(kept, Net()) && r.value.meanAlpha == Mean(kept, Alpha())
  {
    var schedule := FixedSlotSchedule(observations, slots);
    if schedule.Rejected? {
      return Rejected(schedule.reason);
    }
    var kept := schedule.value.retained;
    var closing := Sorting.Sort(ByExit(), kept);
    var equity, deepest := Realize(closing, slots);
    EquityIsSum(closing, slots);
    SumIgnoresOrder(ByExit(), kept, Net());
    NoLossAmong(kept, slots);
    RetainedOrSkipped(Sorting.Sort(Order(), observations), slots);
    Sorting.SortContents(Order(), observations);
    return Ok(Summary(
      slots, |observations|, |kept|, |schedule.value.skipped|, equity - 1.0, deepest, Mean(kept, Net()),
      Mean(kept, Alpha())));
  }

  lemma {:induction false} NoLossAmong(kept: seq<Position>, slots: nat)
    requires slots > 0
    ensures Drawdown(Sorting.Sort(ByExit(), kept), slots) == 0.0 <==> forall o :: o in kept ==> o.net >= 0.0
  {
    var closing := Sorting.Sort(ByExit(), kept);
    NoDrawdownExactlyWhen(closing, slots);
    Sorting.SortMembers(ByExit(), kept);
    if forall i :: 0 <= i < |closing| ==> closing[i].net >= 0.0 {
      forall o | o in kept ensures o.net >= 0.0 {
        assert o in closing;
      }
    }
    if forall o :: o in kept ==> o.net >= 0.0 {
      forall i | 0 <= i < |closing| ensures closing[i].net >= 0.0 {
        assert closing[i] in closing;
      }
    }
  }

  // ---- one position per symbol -----------------------------------------------------------------------

  function LastExit(xs: seq<Position>, symbol: string): Option<int> {
    if xs == [] then None else if Last(xs).symbol == symbol then Some(Last(xs).exit) else LastExit(Init(xs), symbol)
  }

  predicate Overlaps(kept: seq<Position>, o: Position) {
    LastExit(kept, o.symbol).Some? && o.entry <= LastExit(kept, o.symbol).value
  }

  function Disentangled(xs: seq<Position>): seq<Position> {
    if xs == [] then []
    else
      var kept := Disentangled(Init(xs));
      if Overlaps(kept, Last(xs)) then kept else kept + [Last(xs)]
  }

  /** In entry order, with every later position of a symbol strictly after every earlier one. */
  predicate Disjoint(kept: seq<Position>) {
    forall i, j :: 0 <= i < j < |kept| ==>
      kept[i].entry <= kept[j].entry && (kept[i].symbol == kept[j].symbol ==> kept[i].exit < kept[j].entry)
  }

  lemma {:induction false} LastExitIsLast(kept: seq<Position>, symbol: string)
    ensures LastExit(kept, symbol) == None ==> forall i :: 0 <= i < |kept| ==> kept[i].symbol != symbol
    ensures LastExit(kept, symbol).Some? ==>
      (exists i :: 0 <= i < |kept| && kept[i].symbol == symbol
         && kept[i].exit == LastExit(kept, symbol).value && forall j :: i < j < |kept| ==> kept[j].symbol != symbol)
  {
    if kept != [] {
      LastExitIsLast(Init(kept), symbol);
      if Last(kept).symbol == symbol {
        assert kept[|kept| - 1].exit == LastExit(kept, symbol).value;
      } else if LastExit(kept, symbol).Some? {
        var i :| 0 <= i < |Init(kept)| && Init(kept)[i].symbol == symbol
          && Init(kept)[i].exit == LastExit(kept, symbol).value
          && forall j :: i < j < |Init(kept)| ==> Init(kept)[j].symbol != symbol;
        assert kept[i] == Init(kept)[i];
        assert forall j :: i < j < |kept| - 1 ==> kept[j] == Init(kept)[j];
      }
    }
  }

  lemma {:induction false} AddingStaysDisjoint(kept: seq<Position>, o: Position)
    requires Disjoint(kept) && !Overlaps(kept, o) && forall i :: 0 <= i < |kept| ==> kept[i].entry <= o.entry
    ensures Disjoint(kept + [o])
  {
    LastExitIsLast(kept, o.symbol);
    if LastExit(kept, o.symbol).Some? {
      var last :| 0 <= last < |kept| && kept[last].symbol == o.symbol
        && kept[last].exit == LastExit(kept, o.symbol).value
        && forall j :: last < j < |kept| ==> kept[j].symbol != o.symbol;
      forall i | 0 <= i < |kept| && kept[i].symbol == o.symbol ensures kept[i].exit < o.entry {
        assert i < last ==> kept[i].exit < kept[last].entry;
      }
    }
  }

  lemma {:induction false} KeptAreMembers(xs: seq<Position>)
    ensures forall i :: 0 <= i < |Disentangled(xs)| ==> Disentangled(xs)[i] in xs
  {
    if xs != [] {
      KeptAreMembers(Init(xs));
      assert xs == Init(xs) + [Last(xs)];
    }
  }

  /** The kept positions of a symbol never overlap. */
  lemma {:induction false} KeptAreDisjoint(xs: seq<Position>)
    requires EntriesAscend(xs)
    ensures Disjoint(Disentangled(xs))
  {
    if xs != [] {
      var kept, o := Disentangled(Init(xs)), Last(xs);
      KeptAreDisjoint(Init(xs));
      KeptAreMembers(Init(xs));
      forall i | 0 <= i < |kept| ensures kept[i].entry <= o.entry {
        var j :| 0 <= j < |Init(xs)| && Init(xs)[j] == kept[i];
        assert xs[j].entry <= xs[|xs| - 1].entry;
      }
      if !Overlaps(kept, o) {
        AddingStaysDisjoint(kept, o);
      }
    }
  }

  /** Every dropped position starts inside a kept position of its symbol. */
  lemma {:induction false} DroppedOverlapsKept(xs: seq<Position>, o: Position)
    requires EntriesAscend(xs) && o in xs && o !in Disentangled(xs)
    ensures exists r :: r in Disentangled(xs) && r.symbol == o.symbol && r.entry <= o.entry <= r.exit
  {
    var kept := Disentangled(Init(xs));
    assert xs == Init(xs) + [Last(xs)];
    KeptAreMembers(Init(xs));
    if o in Init(xs) {
      DroppedOverlapsKept(Init(xs), o);
    } else {
      LastExitIsLast(kept, o.symbol);
      var i :| 0 <= i < |kept| && kept[i].symbol == o.symbol && kept[i].exit == LastExit(kept, o.symbol).value;
      assert kept[i] in Init(xs) && kept[i] in Disentangled(xs);
    }
  }

  lemma {:induction false} DisjointIsKept(kept: seq<Position>)
    requires Disjoint(kept)
    ensures Disentangled(kept) == kept
  {
    if kept != [] {
      DisjointIsKept(Init(kept));
      LastExitIsLast(Init(kept), Last(kept).symbol);
      assert kept == Init(kept) + [Last(kept)];
      if LastExit(Init(kept), Last(kept).symbol).Some? {
        var i :| 0 <= i < |Init(kept)| && Init(kept)[i].symbol == Last(kept).symbol
          && Init(kept)[i].exit == LastExit(Init(kept), Last(kept).symbol).value;
        assert kept[i].exit < kept[|kept| - 1].entry;
      }
    }
  }

  /** The kept positions are in the sort order already, so a second pass changes nothing. */
  lemma {:induction false} KeptStaySorted(leq: (Position, Position) -> bool, xs: seq<Position>)
    requires Sorting.SortedBy(leq, xs)
    ensures Sorting.SortedBy(leq, Disentangled(xs))
  {
    if xs != [] {
      var kept := Disentangled(Init(xs));
      KeptStaySorted(leq, Init(xs));
      KeptAreMembers(Init(xs));
      assert xs == Init(xs) + [Last(xs)];
      forall i | 0 <= i < |kept| ensures leq(kept[i], Last(xs)) {
        assert kept[i] in Init(xs);
        var j :| 0 <= j < |xs| - 1 && xs[j] == kept[i];
      }
    }
  }

  function WithoutOverlaps(observations: seq<Position>): seq<Position> {
    Disentangled(Sorting.Sort(Order(), observations))
  }

  lemma {:induction false} FilterIsIdempotent(observations: seq<Position>)
    ensures WithoutOverlaps(WithoutOverlaps(observations)) == WithoutOverlaps(observations)
  {
    var sorted := Sorting.Sort(Order(), observations);
    OrderIsTotal();
    Sorting.SortSorts(Order(), observations);
    SortedEntriesAscend(observations);
    KeptStaySorted(Order(), sorted);
    Sorting.SortKeepsSorted(Order(), Disentangled(sorted));
    KeptAreDisjoint(sorted);
    DisjointIsKept(Disentangled(sorted));
  }

  /** One pass with the last exit of each symbol in a dictionary. */
  method WithoutOverlappingPositions(observations: seq<Position>) returns (retained: seq<Position>)
    ensures retained == WithoutOverlaps(observations)
    ensures Disjoint(retained)
    ensures forall o :: o in observations && o !in retained ==>
      exists r :: r in retained && r.symbol == o.symbol && r.entry <= o.entry <= r.exit
  {
    var sorted := Sorting.Sort(Order(), observations);
    var lastExit: map<string, int> := map[];
    retained := [];
    for i := 0 to |sorted|
      invariant retained == Disentangled(sorted[..i])
      invariant forall symbol ::
        (if symbol in lastExit then Some(lastExit[symbol]) else None) == LastExit(retained, symbol)
    {
      var o := sorted[i];
      assert Init(sorted[..i + 1]) == sorted[..i] && Last(sorted[..i + 1]) == o;
      assert (if o.symbol in lastExit then Some(lastExit[o.symbol]) else None) == LastExit(retained, o.symbol);
      if o.symbol in lastExit && o.entry <= lastExit[o.symbol] {
        continue;
      }
      assert Init(retained + [o]) == retained;
      retained := retained + [o];
      lastExit := lastExit[o.symbol := o.exit];
    }
    assert sorted[..|sorted|] == sorted;
    SortedEntriesAscend(observations);
    Sorting.SortMembers(Order(), observations);
    KeptAreDisjoint(sorted);
    forall o | o in observations && o !in retained
      ensures exists r :: r in retained && r.symbol == o.symbol && r.entry <= o.entry <= r.exit
    {
      DroppedOverlapsKept(sorted, o);
    }
  }
}
