/**
 Forward returns of filed events over daily bars: one outcome per event and horizon.

 Symbols are already upper case, prices are exact, dates are integers, and the median is a parameter.
 */
module ForwardReturns {
  import opened Prelude

  datatype Bar = Bar(day: int, open: real, close: real, volume: real)

  /** Microseconds. */
  const DAY := 86_400_000_000

  datatype Event = Event(packet: string, symbol: string, filedAt: int, score: real)

  function FiledOn(e: Event): int {
    e.filedAt / DAY
  }

  datatype Tradability = Tradability(minPrice: real, minVolume: real, window: int)

  datatype Market = Market(
    bars: map<string, seq<Bar>>, benchmark: string, cost: real, tradability: Tradability, median: seq<real> -> real)

  datatype Reason =
    | MissingBars | MissingEntry | InvalidEntryPrice | FailsPrice | FailsLiquidity | MissingExit | MissingBenchmark
    | MissingBucket

  /** A traded outcome has a benchmark and no skip reason; a skipped one has neither return. */
  datatype Outcome = Skipped(reason: Reason) | Traded(alpha: real)

  datatype Observation = Observation(packet: string, horizon: int, outcome: Outcome)

  datatype Entry = Refused(reason: Reason) | Entered(index: nat)

  /** The first bar strictly after the filing date. */
  function FindEntry(bars: seq<Bar>, filed: int, from: nat): (r: Option<nat>)
    requires from <= |bars|
    ensures r.Some? ==> from <= r.value < |bars| && bars[r.value].day > filed
    ensures r.Some? ==> forall i :: from <= i < r.value ==> bars[i].day <= filed
    ensures r == None ==> forall i :: from <= i < |bars| ==> bars[i].day <= filed
    decreases |bars| - from
  {
    if from == |bars| then None else if bars[from].day > filed then Some(from) else FindEntry(bars, filed, from + 1)
  }

  function FindOnOrAfter(bars: seq<Bar>, day: int): Option<Bar> {
    if bars == [] then None else if bars[0].day >= day then Some(bars[0]) else FindOnOrAfter(bars[1..], day)
  }

  function DollarVolumes(bars: seq<Bar>): seq<real> {
    if bars == [] then [] else [bars[0].close * bars[0].volume] + DollarVolumes(bars[1..])
  }

  function TrailingMedian(m: Market, bars: seq<Bar>, end: nat, window: int): Option<real>
    requires end <= |bars|
  {
    if window <= 0 || end - window < 0 then None else Some(m.median(DollarVolumes(bars[end - window..end])))
  }

  /** Checks that need no horizon, in order. */
  function Enter(m: Market, e: Event): (r: Entry)
    ensures r.Entered? ==> e.symbol in m.bars && r.index < |m.bars[e.symbol]| && m.bars[e.symbol][r.index].open > 0.0
  {
    if e.symbol !in m.bars || m.bars[e.symbol] == [] then Refused(MissingBars)
    else
      var bars := m.bars[e.symbol];
      match FindEntry(bars, FiledOn(e), 0)
      case None => Refused(MissingEntry)
      case Some(i) =>
        if bars[i].open <= 0.0 then Refused(InvalidEntryPrice)
        else if m.tradability.minPrice > 0.0 && bars[i].open < m.tradability.minPrice then Refused(FailsPrice)
        else if m.tradability.minVolume > 0.0 && !Liquid(m, bars, i) then Refused(FailsLiquidity)
        else Entered(i)
  }

  predicate Liquid(m: Market, bars: seq<Bar>, entry: nat)
    requires entry <= |bars|
  {
    var median := TrailingMedian(m, bars, entry, m.tradability.window);
    median.Some? && median.value >= m.tradability.minVolume
  }

  function Hold(m: Market, bars: seq<Bar>, entry: nat, horizon: int): Outcome
    requires entry < |bars| && bars[entry].open > 0.0 && horizon > 0
  {
    var exit := entry + horizon - 1;
    if exit >= |bars| then Skipped(MissingExit)
    else if m.benchmark !in m.bars then Skipped(MissingBenchmark)
    else
      match (FindOnOrAfter(m.bars[m.benchmark], bars[entry].day), FindOnOrAfter(m.bars[m.benchmark], bars[exit].day))
      case (Some(a), Some(b)) =>
        if a.open <= 0.0 then Skipped(MissingBenchmark)
        else Traded((bars[exit].close / bars[entry].open - 1.0 - m.cost) - (b.close / a.open - 1.0))
      case _ => Skipped(MissingBenchmark)
  }

  function Observe(m: Market, e: Event, horizon: int): Observation
    requires horizon > 0
  {
    var entry := Enter(m, e);
    Observation(
      e.packet, horizon,
      if entry.Refused? then Skipped(entry.reason) else Hold(m, m.bars[e.symbol], entry.index, horizon))
  }

  predicate Positive(horizons: seq<int>) {
    forall i :: 0 <= i < |horizons| ==> horizons[i] > 0
  }

  function ObserveAll(m: Market, e: Event, horizons: seq<int>): (r: seq<Observation>)
    requires Positive(horizons)
    ensures |r| == |horizons| && forall i :: 0 <= i < |r| ==> r[i] == Observe(m, e, horizons[i])
  {
    seq(|horizons|, i requires 0 <= i < |horizons| => Observe(m, e, horizons[i]))
  }

  function Returns(m: Market, events: seq<Event>, horizons: seq<int>): seq<Observation>
    requires Positive(horizons)
  {
    if events == [] then [] else Returns(m, Init(events), horizons) + ObserveAll(m, Last(events), horizons)
  }

  /** One pass over events and horizons; a refused event is skipped once for every horizon. */
  method ComputeForwardReturns(
    m: Market, events: seq<Event>, horizons: seq<int>) returns (observations: seq<Observation>)
    requires Positive(horizons)
    ensures observations == Returns(m, events, horizons)
  {
    observations := [];
    for i := 0 to |events|
      invariant observations == Returns(m, events[..i], horizons)
    {
      var e := events[i];
      assert Init(events[..i + 1]) == events[..i] && Last(events[..i + 1]) == e;
      var entry := Enter(m, e);
      var rows: seq<Observation> := [];
      for k := 0 to |horizons|
        invariant rows == ObserveAll(m, e, horizons)[..k]
      {
        var outcome := Skipped(MissingBars);
        if entry.Refused? {
          outcome := Skipped(entry.reason);
        } else {
          outcome := Hold(m, m.bars[e.symbol], entry.index, horizons[k]);
        }
        rows := rows + [Observation(e.packet, horizons[k], outcome)];
      }
      assert rows == ObserveAll(m, e, horizons);
      observations := observations + rows;
    }
    assert events[..|events|] == events;
  }

  // ---- no look-ahead ------------------------------------------------------------------------------------

  lemma {:induction false} EntryKeepsIndex(a: seq<Bar>, b: seq<Bar>, filed: int, from: nat)
    requires a <= b && from <= |a| && FindEntry(a, filed, from).Some?
    ensures FindEntry(b, filed, from) == FindEntry(a, filed, from)
    decreases |a| - from
  {
    if a[from].day <= filed {
      EntryKeepsIndex(a, b, filed, from + 1);
    }
  }

  lemma {:induction false} BenchmarkKeeps(a: seq<Bar>, b: seq<Bar>, day: int)
    requires a <= b && FindOnOrAfter(a, day).Some?
    ensures FindOnOrAfter(b, day) == FindOnOrAfter(a, day)
  {
    if a[0].day < day {
      assert a[1..] <= b[1..];
      BenchmarkKeeps(a[1..], b[1..], day);
    }
  }

  /** The same market once more bars have arrived. */
  ghost predicate Later(m: Market, m': Market) {
    && m' == m.(bars := m'.bars)
    && forall s :: s in m.bars ==> s in m'.bars && m.bars[s] <= m'.bars[s]
  }

  lemma {:induction false} EntryIsSettled(m: Market, m': Market, e: Event)
    requires Later(m, m') && (Enter(m, e).Entered? || Enter(m, e).reason !in {MissingBars, MissingEntry})
    ensures Enter(m', e) == Enter(m, e)
  {
    var a, b := m.bars[e.symbol], m'.bars[e.symbol];
    EntryKeepsIndex(a, b, FiledOn(e), 0);
    var i := FindEntry(a, FiledOn(e), 0).value;
    if i >= m.tradability.window > 0 {
      assert a[i - m.tradability.window..i] == b[i - m.tradability.window..i];
    }
  }

  /** Bars that arrive later never change a traded outcome. */
  lemma {:induction false} TradedIsSettled(m: Market, m': Market, e: Event, horizon: int)
    requires Later(m, m') && horizon > 0 && Observe(m, e, horizon).outcome.Traded?
    ensures Observe(m', e, horizon) == Observe(m, e, horizon)
  {
    EntryIsSettled(m, m', e);
    var bars, entry := m.bars[e.symbol], Enter(m, e).index;
    BenchmarkKeeps(m.bars[m.benchmark], m'.bars[m.benchmark], bars[entry].day);
    BenchmarkKeeps(m.bars[m.benchmark], m'.bars[m.benchmark], bars[entry + horizon - 1].day);
  }

  /** Nothing known on or before the filing date is traded: entry is the first bar strictly after it. */
  lemma {:induction false} EntryFollowsFiling(m: Market, e: Event)
    requires Enter(m, e).Entered?
    ensures var bars, i := m.bars[e.symbol], Enter(m, e).index;
      bars[i].day > FiledOn(e) && forall k :: 0 <= k < i ==> bars[k].day <= FiledOn(e)
  {
  }

  // ---- exactly what is traded, and at what return ---------------------------------------------------------

  /** Bar `i` is the first dated after the filing. */
  predicate FirstAfter(bars: seq<Bar>, filed: int, i: nat) {
    i < |bars| && bars[i].day > filed && forall k :: 0 <= k < i ==> bars[k].day <= filed
  }

  /** Bar `i` is the first dated on or after a day. */
  predicate FirstFrom(bars: seq<Bar>, day: int, i: nat) {
    i < |bars| && bars[i].day >= day && forall k :: 0 <= k < i ==> bars[k].day < day
  }

  lemma {:induction false} FindEntryIsFirst(bars: seq<Bar>, filed: int, i: nat)
    ensures FindEntry(bars, filed, 0) == Some(i) <==> FirstAfter(bars, filed, i)
  {
  }

  lemma {:induction false} FindOnOrAfterIsFirst(bars: seq<Bar>, day: int, i: nat)
    ensures FirstFrom(bars, day, i) ==> FindOnOrAfter(bars, day) == Some(bars[i])
    ensures FindOnOrAfter(bars, day) == None <==> forall k :: 0 <= k < |bars| ==> bars[k].day < day
  {
    if bars != [] && bars[0].day < day {
      assert forall k :: 0 < k < |bars| ==> bars[k] == bars[1..][k - 1];
      FindOnOrAfterIsFirst(bars[1..], day, if i > 0 then i - 1 else 0);
    }
  }

  lemma {:induction false} DollarVolumesAt(bars: seq<Bar>)
    ensures |DollarVolumes(bars)| == |bars|
    ensures forall k :: 0 <= k < |bars| ==> DollarVolumes(bars)[k] == bars[k].close * bars[k].volume
  {
    if bars != [] {
      DollarVolumesAt(bars[1..]);
    }
  }

  /** Liquidity is the median dollar volume of the whole window of bars before the entry. */
  lemma {:induction false} LiquidExactlyWhen(m: Market, bars: seq<Bar>, entry: nat, volumes: seq<real>)
    requires entry <= |bars|
    requires 0 < m.tradability.window <= entry ==>
      |volumes| == m.tradability.window
      && forall k :: 0 <= k < |volumes| ==>
           volumes[k] == bars[entry - |volumes| + k].close * bars[entry - |volumes| + k].volume
    ensures Liquid(m, bars, entry) <==>
      0 < m.tradability.window <= entry && m.median(volumes) >= m.tradability.minVolume
  {
    var window := m.tradability.window;
    if 0 < window <= entry {
      var held := bars[entry - window..entry];
      DollarVolumesAt(held);
      forall k | 0 <= k < window ensures volumes[k] == DollarVolumes(held)[k] {
        assert held[k] == bars[entry - |volumes| + k];
      }
      assert volumes == DollarVolumes(held);
    }
  }

  /** When an event enters, and otherwise which check refuses it first. */
  lemma {:induction false} EntersExactlyWhen(m: Market, e: Event, i: nat)
    ensures var entry, t := Enter(m, e), m.tradability;
      if e.symbol !in m.bars || m.bars[e.symbol] == [] then entry == Refused(MissingBars)
      else
        var bars := m.bars[e.symbol];
        && (entry == Refused(MissingEntry) <==> forall k :: 0 <= k < |bars| ==> bars[k].day <= e.filedAt / DAY)
        && (FirstAfter(bars, e.filedAt / DAY, i) ==>
              var open := bars[i].open;
              && (entry == Refused(InvalidEntryPrice) <==> open <= 0.0)
              && (entry == Refused(FailsPrice) <==> open > 0.0 && t.minPrice > 0.0 && open < t.minPrice)
              && (entry == Refused(FailsLiquidity) <==>
                    open > 0.0 && (t.minPrice <= 0.0 || open >= t.minPrice) && t.minVolume > 0.0 && !Liquid(m, bars, i))
              && (entry == Entered(i) <==>
                    && open > 0.0 && (t.minPrice <= 0.0 || open >= t.minPrice)
                    && (t.minVolume <= 0.0 || Liquid(m, bars, i)))
              && (entry.Entered? ==> entry.index == i))
  {
    if e.symbol in m.bars && FirstAfter(m.bars[e.symbol], FiledOn(e), i) {
      FindEntryIsFirst(m.bars[e.symbol], FiledOn(e), i);
    }
  }

  lemma {:induction false} Ratios(x: real, e: real, b: real, a: real, cost: real)
    requires e > 0.0 && a > 0.0
    ensures ((x / e - 1.0 - cost) - (b / a - 1.0) + cost) * e * a == x * a - b * e
  {
    var p, q := x / e, b / a;
    assert p * e == x && q * a == b;
    assert (p - q) * e * a == p * e * a - q * a * e;
  }

  /**
   An entered event is traded exactly when the stock has a bar `horizon` bars from the entry on and the
   benchmark one from the entry day and one from the exit day on.  The return before costs is the
   stock's, from the entry's open to the exit's close, less the benchmark's between its bars; all
   multiplied out.
   */
  lemma {:induction false} TradedExactlyWhen(m: Market, e: Event, horizon: int, i: nat, a: nat, b: nat)
    requires horizon > 0 && Enter(m, e) == Entered(i)
    ensures var bars, outcome := m.bars[e.symbol], Observe(m, e, horizon).outcome;
      && (outcome == Skipped(MissingExit) <==> i + horizon - 1 >= |bars|)
      && (outcome.Skipped? ==> outcome.reason in {MissingExit, MissingBenchmark})
      && (i + horizon - 1 < |bars| && m.benchmark !in m.bars ==> outcome == Skipped(MissingBenchmark))
      && (i + horizon - 1 < |bars| && m.benchmark in m.bars ==>
            var bench, exit := m.bars[m.benchmark], bars[i + horizon - 1];
            && ((forall k :: 0 <= k < |bench| ==> bench[k].day < exit.day) ==> outcome == Skipped(MissingBenchmark))
            && ((forall k :: 0 <= k < |bench| ==> bench[k].day < bars[i].day) ==> outcome == Skipped(MissingBenchmark))
            && (FirstFrom(bench, bars[i].day, a) && FirstFrom(bench, exit.day, b) ==>
                  && (outcome.Traded? <==> bench[a].open > 0.0)
                  && (outcome.Traded? ==>
                        (outcome.alpha + m.cost) * bars[i].open * bench[a].open
                        == exit.close * bench[a].open - bench[b].close * bars[i].open)))
  {
    var bars := m.bars[e.symbol];
    if i + horizon - 1 < |bars| && m.benchmark in m.bars {
      var bench, exit := m.bars[m.benchmark], bars[i + horizon - 1];
      FindOnOrAfterIsFirst(bench, bars[i].day, a);
      FindOnOrAfterIsFirst(bench, exit.day, b);
      if FirstFrom(bench, bars[i].day, a) && FirstFrom(bench, exit.day, b) && bench[a].open > 0.0 {
        Ratios(exit.close, bars[i].open, bench[b].close, bench[a].open, m.cost);
      }
    }
  }

  /** The observations come event by event and, for each, horizon by horizon. */
  lemma {:induction false} ReturnsInOrder(m: Market, events: seq<Event>, horizons: seq<int>, i: nat, k: nat)
    requires Positive(horizons) && i < |events| && k < |horizons|
    ensures |Returns(m, events, horizons)| == |events| * |horizons|
    ensures i * |horizons| + k < |Returns(m, events, horizons)|
    ensures var o := Returns(m, events, horizons)[i * |horizons| + k];
      o.packet == events[i].packet && o.horizon == horizons[k]
      && o.outcome == Observe(m, events[i], horizons[k]).outcome
  {
    var before, at := Init(events), i * |horizons| + k;
    ReturnsCount(m, events, horizons);
    ReturnsCount(m, before, horizons);
    if i < |before| {
      ReturnsInOrder(m, before, horizons, i, k);
      assert Returns(m, events, horizons)[at] == Returns(m, before, horizons)[at];
    } else {
      assert at == |Returns(m, before, horizons)| + k;
      assert Returns(m, events, horizons)[at] == ObserveAll(m, Last(events), horizons)[k];
    }
  }

  lemma {:induction false} ReturnsCount(m: Market, events: seq<Event>, horizons: seq<int>)
    requires Positive(horizons)
    ensures |Returns(m, events, horizons)| == |events| * |horizons|
  {
    if events != [] {
      ReturnsCount(m, Init(events), horizons);
      assert |events| * |horizons| == |Init(events)| * |horizons| + |horizons|;
    }
  }
}
