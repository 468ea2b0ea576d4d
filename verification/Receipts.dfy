/**
 Inspection of one acquired response against the attempt that was committed before it.

 A field the source may leave out or spoil is an `Option`.  Where the source compares
 digests of canonical rows, the model compares the rows.
 */
module Receipts {
  import opened Prelude
  import opened Calendar
  import opened LocalTime

  const EXCHANGES := {"NYSE", "NASDAQ", "AMEX", "ARCA", "BATS", "ISLAND", "IEX"}
  const NETWORK_CLOSES := 28_800
  const NETWORK_OPENS := 64_800

  /** A candidate case or the benchmark; the source writes `case:<id>` and `benchmark:SPY`. */
  datatype Owner = Benchmark | Case(id: string)

  datatype Stage = R1 | R2 | R3 | CheckpointW10 | ScheduleThrough(day: int)

  /** The source joins owner and stage with a slash; owners contain none. */
  datatype JobKey = JobKey(owner: Owner, stage: Stage)

  /** The durable request an attempt commits to. */
  datatype Intent = Intent(
    symbol: string, expectedConid: Option<int>, schedule: bool, startDate: int, endAt: int, jobs: seq<JobKey>,
    requiredDates: seq<int>, plannedAt: int)

  datatype Outcome =
    | Received | EmptyResponse | ContractMissing | ContractAmbiguous | ContractNotSupported | PinnedNotReturned
    | BrokerError | OtherOutcome(name: string)

  datatype Identity = Identity(
    symbol: string, conid: int, security: string, currency: string, exchange: string, observedAt: int)

  /** The request the source reports having sent. */
  datatype Echo = Echo(startDate: int, endAt: int, show: string, barSize: string, regularHours: bool, formatDate: int)

  datatype Prices = Prices(open: real, high: real, low: real, close: real, volume: real)

  /** `values` is absent when a field is missing, not numeric or not finite. */
  datatype Bar = Bar(date: Option<int>, values: Option<Prices>, rest: string)

  datatype Hours = Hours(open: int, openDay: int, close: int, closeDay: int)

  datatype Listing = Listing(date: Option<int>, hours: Option<Hours>, rest: string)

  datatype Response = Bars(rows: seq<Bar>) | Listings(zoneKnown: bool, listings: seq<Listing>) | Unreadable

  datatype Source = Source(
    outcome: Outcome,
    errorCode: Option<int>,
    errorCategory: string,
    cleanupErrors: bool,
    clockValid: bool,
    symbol: Option<string>,
    identity: Option<Identity>,
    echo: Option<Echo>,
    startedAt: Option<int>,
    dispatchedAt: Option<int>,
    responseAt: Option<int>,
    finishedAt: Option<int>,
    response: Response)

  /** One committed attempt with the response recorded for it. */
  datatype Exchange = Exchange(
    attemptSha: string, attemptAt: int, intent: Intent, entity: string, recordSha: string, recordedAt: int,
    source: Source)

  datatype Receipt = Receipt(
    usable: bool,
    bars: map<int, Bar>,
    completed: map<int, Listing>,
    projected: seq<int>,
    dateIssues: set<int>,
    conid: Option<int>,
    responseAt: Option<int>,
    sha: string)

  function MappedSymbol(symbol: string): string {
    if symbol == "BRK.A" then "BRK A" else if symbol == "BRK.B" then "BRK B" else symbol
  }

  predicate Ordered(clocks: seq<int>) {
    forall i, j :: 0 <= i < j < |clocks| ==> clocks[i] <= clocks[j]
  }

  /** The contract id a response pins, even when its history call failed afterwards. */
  function QualifiedIdentity(x: Exchange): Option<int> {
    var s := x.source;
    if s.identity == None || s.symbol == None || s.startedAt == None || s.finishedAt == None then None
    else
      var id := s.identity.value;
      if
        || x.entity != x.attemptSha
        || s.symbol.value != x.intent.symbol
        || !s.clockValid
        || !Ordered([x.attemptAt, s.startedAt.value, id.observedAt, s.finishedAt.value, x.recordedAt])
        || id.conid <= 0
        || id.security != "STK"
        || id.currency != "USD"
        || id.exchange !in EXCHANGES
        || (x.intent.expectedConid.Some? && id.conid != x.intent.expectedConid.value)
        || (x.intent.expectedConid == None && id.symbol != MappedSymbol(x.intent.symbol))
      then None
      else Some(id.conid)
  }

  // ---- daily bars ----------------------------------------------------------------------------

  predicate PricesOk(p: Prices) {
    && p.open > 0.0 && p.high > 0.0 && p.low > 0.0 && p.close > 0.0
    && p.volume >= 0.0
    && p.low <= p.open && p.low <= p.close
    && p.high >= p.open && p.high >= p.close
  }

  /** A well-formed bar of an exchange day that had closed by `limit`. */
  predicate BarOk(days: Days, day: int, bar: Bar, limit: int) {
    && bar.values.Some?
    && PricesOk(bar.values.value)
    && DayOf(days, day).fact.Trading?
    && DayOf(days, day).fact.closesAt <= limit
  }

  datatype BarState = BarState(seen: set<int>, bars: map<int, Bar>, issues: set<int>)

  function BarStep(days: Days, limit: int, st: BarState, bar: Bar): BarState {
    if bar.date == None then st
    else
      var day := bar.date.value;
      var problem := day in st.seen || !BarOk(days, day, bar, limit);
      BarState(
        st.seen + {day},
        if problem then st.bars - {day} else st.bars[day := bar],
        if problem then st.issues + {day} else st.issues)
  }

  function BarFold(days: Days, limit: int, rows: seq<Bar>): BarState {
    if rows == [] then BarState({}, map[], {}) else BarStep(days, limit, BarFold(days, limit, Init(rows)), Last(rows))
  }

  /** Reads the rows once; any problem on a date withdraws whatever that date had. */
  method ReadBars(days: Days, rows: seq<Bar>, received: int, requestedEnd: int)
    returns (bars: map<int, Bar>, issues: set<int>)
    ensures bars == BarFold(days, Min(received, requestedEnd), rows).bars
    ensures issues == BarFold(days, Min(received, requestedEnd), rows).issues
  {
    var seen: set<int> := {};
    bars, issues := map[], {};
    for i := 0 to |rows|
      invariant BarFold(days, Min(received, requestedEnd), rows[..i]) == BarState(seen, bars, issues)
    {
      assert Init(rows[..i + 1]) == rows[..i] && Last(rows[..i + 1]) == rows[i];
      if rows[i].date.Some? {
        var day := rows[i].date.value;
        var problem := day in seen;
        seen := seen + {day};
        if problem || !BarOk(days, day, rows[i], Min(received, requestedEnd)) {
          bars := bars - {day};
          issues := issues + {day};
        } else {
          bars := bars[day := rows[i]];
        }
      }
    }
    assert rows[..|rows|] == rows;
  }

  function BarsDated(rows: seq<Bar>, day: int): seq<Bar> {
    if rows == [] then []
    else BarsDated(Init(rows), day) + if Last(rows).date == Some(day) then [Last(rows)] else []
  }

  /** A date is covered exactly when it has one row and that row is sound. */
  lemma {:induction false} CoveredBarIsUnique(days: Days, limit: int, rows: seq<Bar>, day: int)
    ensures var st, dated := BarFold(days, limit, rows), BarsDated(rows, day);
      && (day in st.seen <==> dated != [])
      && (day in st.bars <==> |dated| == 1 && BarOk(days, day, dated[0], limit))
      && (day in st.bars ==> st.bars[day] == dated[0])
      && (day in st.issues <==> dated != [] && day !in st.bars)
  {
    if rows != [] {
      CoveredBarIsUnique(days, limit, Init(rows), day);
    }
  }

  // ---- published schedules ---------------------------------------------------------------------

  predicate ListingShaped(day: int, hours: Option<Hours>) {
    hours.Some? && hours.value.open < hours.value.close && hours.value.openDay == day && hours.value.closeDay == day
  }

  predicate ListingAgrees(days: Days, day: int, h: Hours) {
    DayOf(days, day).fact == Trading(h.open, h.close)
  }

  /** A listing of a session that had closed when received and that matches the frozen day. */
  predicate ListingOk(days: Days, day: int, row: Listing, received: int) {
    ListingShaped(day, row.hours) && row.hours.value.close <= received && ListingAgrees(days, day, row.hours.value)
  }

  datatype ListingState = ListingState(
    seen: set<int>, completed: map<int, Listing>, projected: seq<int>, issues: set<int>)

  function ListingStep(days: Days, received: int, st: ListingState, row: Listing): ListingState {
    if row.date == None then st
    else
      var day := row.date.value;
      if !ListingShaped(day, row.hours) || day in st.seen then
        st.(completed := st.completed - {day}, issues := st.issues + {day})
      else if row.hours.value.close > received then
        st.(seen := st.seen + {day}, projected := st.projected + [day])
      else if !ListingAgrees(days, day, row.hours.value) then
        st.(seen := st.seen + {day}, completed := st.completed - {day}, issues := st.issues + {day})
      else
        st.(seen := st.seen + {day}, completed := st.completed[day := row])
  }

  function ListingFold(days: Days, received: int, rows: seq<Listing>): ListingState {
    if rows == [] then ListingState({}, map[], [], {})
    else ListingStep(days, received, ListingFold(days, received, Init(rows)), Last(rows))
  }

  method ReadSchedule(days: Days, rows: seq<Listing>, received: int)
    returns (completed: map<int, Listing>, projected: seq<int>, issues: set<int>)
    ensures var st := ListingFold(days, received, rows);
      completed == st.completed && projected == st.projected && issues == st.issues
  {
    var seen: set<int> := {};
    completed, projected, issues := map[], [], {};
    for i := 0 to |rows|
      invariant ListingFold(days, received, rows[..i]) == ListingState(seen, completed, projected, issues)
    {
      assert Init(rows[..i + 1]) == rows[..i] && Last(rows[..i + 1]) == rows[i];
      if rows[i].date == None {
        continue;
      }
      var day := rows[i].date.value;
      var refused := !ListingShaped(day, rows[i].hours) || day in seen;
      if !refused {
        seen := seen + {day};
        if rows[i].hours.value.close > received {
          projected := projected + [day];
          continue;
        }
        if ListingAgrees(days, day, rows[i].hours.value) {
          completed := completed[day := rows[i]];
          continue;
        }
      }
      completed := completed - {day};
      issues := issues + {day};
    }
    assert rows[..|rows|] == rows;
  }

  function ListingsDated(rows: seq<Listing>, day: int): seq<Listing> {
    if rows == [] then []
    else ListingsDated(Init(rows), day) + if Last(rows).date == Some(day) then [Last(rows)] else []
  }

  /** A date is covered exactly when it is listed once, completed, and as the frozen calendar has it. */
  lemma {:induction false} CoveredListingIsUnique(days: Days, received: int, rows: seq<Listing>, day: int)
    ensures var st, dated := ListingFold(days, received, rows), ListingsDated(rows, day);
      && (day in st.seen || day in st.issues <==> dated != [])
      && (dated != [] && day !in st.issues ==> day in st.seen && |dated| == 1)
      && (day in st.completed && day !in st.issues ==> dated != [] && st.completed[day] == dated[0])
      && (day in st.completed && day !in st.issues <==> |dated| == 1 && ListingOk(days, day, dated[0], received))
  {
    SeenMeansListed(days, received, rows, day);
    if rows != [] {
      SeenMeansListed(days, received, Init(rows), day);
      CoveredListingIsUnique(days, received, Init(rows), day);
    }
  }

  lemma {:induction false} SeenMeansListed(days: Days, received: int, rows: seq<Listing>, day: int)
    ensures var st, dated := ListingFold(days, received, rows), ListingsDated(rows, day);
      && (day in st.seen || day in st.issues <==> dated != [])
      && (dated != [] && day !in st.issues ==> day in st.seen && |dated| == 1)
  {
    if rows != [] {
      SeenMeansListed(days, received, Init(rows), day);
    }
  }

  // ---- one receipt -------------------------------------------------------------------------------

  predicate EchoMatches(intent: Intent, echo: Echo) {
    && echo.startDate == intent.startDate
    && echo.endAt == intent.endAt
    && echo.show == (if intent.schedule then "SCHEDULE" else "TRADES")
    && echo.barSize == "1 day"
    && echo.regularHours
    && echo.formatDate == (if intent.schedule then 1 else 2)
  }

  /** Every field the inspection reads is present, so that no lookup fails on the way. */
  predicate Complete(s: Source) {
    && s.identity.Some? && s.echo.Some? && s.symbol.Some?
    && s.startedAt.Some? && s.dispatchedAt.Some? && s.responseAt.Some? && s.finishedAt.Some?
  }

  predicate ResponseReadable(schedule: bool, response: Response) {
    match response
    case Bars(_) => !schedule
    case Listings(zoneKnown, _) => schedule && zoneKnown
    case Unreadable => false
  }

  /** The checks on a complete response that leave it without an issue. */
  predicate Clean(z: Zone, x: Exchange)
    requires Complete(x.source)
  {
    var s := x.source;
    && x.entity == x.attemptSha
    && (s.outcome == Received || s.outcome == EmptyResponse)
    && s.clockValid
    && !s.cleanupErrors
    && QualifiedIdentity(x).Some?
    && s.symbol.value == x.intent.symbol
    && EchoMatches(x.intent, s.echo.value)
    && Ordered([
         x.attemptAt, s.startedAt.value, s.identity.value.observedAt, s.dispatchedAt.value, s.responseAt.value,
         s.finishedAt.value, x.recordedAt])
    && s.echo.value.endAt <= s.dispatchedAt.value
    && !(NETWORK_CLOSES <= z.localTime(s.dispatchedAt.value) < NETWORK_OPENS)
    && ResponseReadable(x.intent.schedule, s.response)
  }

  function Inspected(z: Zone, days: Days, x: Exchange): (r: Receipt)
    ensures r.usable ==> Complete(x.source) && Clean(z, x) && r.conid.Some?
  {
    var s := x.source;
    var blank := Receipt(false, map[], map[], [], {}, None, None, x.recordSha);
    if x.entity != x.attemptSha || s.identity == None then blank
    else
      var known := blank.(conid := QualifiedIdentity(x));
      if !Complete(s) then known
      else
        var timed := known.(usable := Clean(z, x), responseAt := s.responseAt);
        match s.response
        case Bars(rows) =>
          if x.intent.schedule then timed
          else
            var st := BarFold(days, Min(s.responseAt.value, s.echo.value.endAt), rows);
            timed.(bars := st.bars, dateIssues := st.issues)
        case Listings(zoneKnown, rows) =>
          if !x.intent.schedule || !zoneKnown then timed
          else
            var st := ListingFold(days, s.responseAt.value, rows);
            timed.(completed := st.completed, projected := st.projected, dateIssues := st.issues)
        case Unreadable => timed
  }

  method InspectReceipt(z: Zone, days: Days, x: Exchange) returns (r: Receipt)
    ensures r == Inspected(z, days, x)
  {
    r := Receipt(false, map[], map[], [], {}, None, None, x.recordSha);
    var s := x.source;
    if x.entity != x.attemptSha {
      return r;
    }
    var usable := (s.outcome == Received || s.outcome == EmptyResponse) && s.clockValid && !s.cleanupErrors;
    if s.identity == None {
      return r;
    }
    r := r.(conid := QualifiedIdentity(x));
    usable := usable && r.conid.Some?;
    if !Complete(s) {
      return r;
    }
    usable := usable && s.symbol.value == x.intent.symbol && EchoMatches(x.intent, s.echo.value);
    var clocks := [
      x.attemptAt, s.startedAt.value, s.identity.value.observedAt, s.dispatchedAt.value, s.responseAt.value,
      s.finishedAt.value, x.recordedAt];
    usable := usable && Ordered(clocks) && s.echo.value.endAt <= clocks[3];
    var dispatched := z.localTime(clocks[3]);
    usable := usable && !(NETWORK_CLOSES <= dispatched < NETWORK_OPENS);
    r := r.(responseAt := s.responseAt);
    if !ResponseReadable(x.intent.schedule, s.response) {
      return r;
    }
    if x.intent.schedule {
      var completed, projected, issues := ReadSchedule(days, s.response.listings, clocks[4]);
      r := r.(completed := completed, projected := projected, dateIssues := issues);
    } else {
      var bars, issues := ReadBars(days, s.response.rows, clocks[4], s.echo.value.endAt);
      r := r.(bars := bars, dateIssues := issues);
    }
    r := r.(usable := usable);
  }

  predicate Covers(r: Receipt, dates: seq<int>, schedule: bool) {
    && r.usable
    && dates != []
    && forall i :: 0 <= i < |dates| ==>
         (if schedule then dates[i] in r.completed else dates[i] in r.bars) && dates[i] !in r.dateIssues
  }

  /** Two projections agree on every requested date under one contract. */
  predicate Stable(left: Receipt, right: Receipt, dates: seq<int>) {
    && Covers(left, dates, false)
    && Covers(right, dates, false)
    && left.conid == right.conid
    && forall i :: 0 <= i < |dates| ==> left.bars[dates[i]] == right.bars[dates[i]]
  }

  /** When a response pins a contract: it qualified a listed US stock for the attempt, in clock order. */
  lemma {:induction false} PinsExactlyWhen(x: Exchange, conid: int)
    ensures QualifiedIdentity(x) == Some(conid) <==>
      var s := x.source;
      && s.identity.Some? && s.startedAt.Some? && s.finishedAt.Some?
      && var id := s.identity.value;
      && id.conid == conid > 0 && id.security == "STK" && id.currency == "USD"
      && id.exchange in {"NYSE", "NASDAQ", "AMEX", "ARCA", "BATS", "ISLAND", "IEX"}
      && (x.intent.expectedConid == Some(conid)
          || (x.intent.expectedConid == None
              && id.symbol == match x.intent.symbol case "BRK.A" => "BRK A" case "BRK.B" => "BRK B" case same => same))
      && x.entity == x.attemptSha && s.symbol == Some(x.intent.symbol) && s.clockValid
      && x.attemptAt <= s.startedAt.value <= id.observedAt <= s.finishedAt.value <= x.recordedAt
  {
    var s := x.source;
    if s.identity.Some? && s.startedAt.Some? && s.finishedAt.Some? {
      OrderedFive(x.attemptAt, s.startedAt.value, s.identity.value.observedAt, s.finishedAt.value, x.recordedAt);
    }
  }

  lemma {:induction false} OrderedFive(a: int, b: int, c: int, d: int, e: int)
    ensures Ordered([a, b, c, d, e]) <==> a <= b <= c <= d <= e
  {
    var s := [a, b, c, d, e];
    if Ordered(s) {
      assert s[0] <= s[1] <= s[2] && s[2] <= s[3] <= s[4];
    }
  }

  lemma {:induction false} OrderedSeven(a: int, b: int, c: int, d: int, e: int, f: int, g: int)
    ensures Ordered([a, b, c, d, e, f, g]) <==> a <= b <= c <= d <= e <= f <= g
  {
    var s := [a, b, c, d, e, f, g];
    if Ordered(s) {
      assert s[0] <= s[1] <= s[2] && s[2] <= s[3] <= s[4] && s[4] <= s[5] <= s[6];
    }
  }

  /**
   A receipt is usable exactly when the source received an answer of the kind asked for to the very
   request that was committed, asked no later data than it was sent for, outside trading hours, from one
   pinned contract, with all seven clocks in order.
   */
  lemma {:induction false} UsableExactlyWhen(z: Zone, days: Days, x: Exchange)
    ensures Inspected(z, days, x).usable <==>
      var s, intent := x.source, x.intent;
      && s.identity.Some? && s.startedAt.Some? && s.dispatchedAt.Some? && s.responseAt.Some? && s.finishedAt.Some?
      && x.entity == x.attemptSha
      && s.outcome in {Received, EmptyResponse} && s.clockValid && !s.cleanupErrors
      && QualifiedIdentity(x).Some?
      && s.echo == Some(Echo(
           intent.startDate, intent.endAt, if intent.schedule then "SCHEDULE" else "TRADES", "1 day", true,
           if intent.schedule then 1 else 2))
      && x.attemptAt <= s.startedAt.value <= s.identity.value.observedAt <= s.dispatchedAt.value
         <= s.responseAt.value <= s.finishedAt.value <= x.recordedAt
      && intent.endAt <= s.dispatchedAt.value
      && !(28_800 <= z.localTime(s.dispatchedAt.value) < 64_800)
      && (if intent.schedule then s.response.Listings? && s.response.zoneKnown else s.response.Bars?)
  {
    var s := x.source;
    if Complete(s) {
      OrderedSeven(
        x.attemptAt, s.startedAt.value, s.identity.value.observedAt, s.dispatchedAt.value, s.responseAt.value,
        s.finishedAt.value, x.recordedAt);
    }
  }

  /** One row for the date, and it is sound: of a session that had closed when received and at the requested end. */
  predicate OneSoundRow(days: Days, x: Exchange, day: int, schedule: bool) {
    if schedule then
      && x.source.response.Listings? && x.source.responseAt.Some?
      && var dated := ListingsDated(x.source.response.listings, day);
      |dated| == 1 && ListingOk(days, day, dated[0], x.source.responseAt.value)
    else
      && x.source.response.Bars? && x.source.responseAt.Some?
      && var dated := BarsDated(x.source.response.rows, day);
      && |dated| == 1
      && BarOk(days, day, dated[0], x.source.responseAt.value) && BarOk(days, day, dated[0], x.intent.endAt)
  }

  /** Dates are covered exactly by a usable receipt of the kind asked for with one sound row for each. */
  lemma {:induction false} CoversExactlyWhen(z: Zone, days: Days, x: Exchange, dates: seq<int>, schedule: bool)
    ensures Covers(Inspected(z, days, x), dates, schedule) <==>
      && Inspected(z, days, x).usable && x.intent.schedule == schedule
      && dates != []
      && forall i :: 0 <= i < |dates| ==> OneSoundRow(days, x, dates[i], schedule)
  {
    var s, r := x.source, Inspected(z, days, x);
    if r.usable {
      forall i | 0 <= i < |dates|
        ensures OneSoundRow(days, x, dates[i], schedule) && x.intent.schedule == schedule <==>
          (if schedule then dates[i] in r.completed else dates[i] in r.bars) && dates[i] !in r.dateIssues
      {
        RowIsCovered(z, days, x, dates[i], schedule);
      }
      assert dates != [] && Covers(r, dates, schedule) ==>
        OneSoundRow(days, x, dates[0], schedule) && x.intent.schedule == schedule;
    }
  }

  lemma {:induction false} RowIsCovered(z: Zone, days: Days, x: Exchange, day: int, schedule: bool)
    requires Inspected(z, days, x).usable
    ensures var r := Inspected(z, days, x);
      OneSoundRow(days, x, day, schedule) && x.intent.schedule == schedule <==>
        (if schedule then day in r.completed else day in r.bars) && day !in r.dateIssues
  {
    var s := x.source;
    match s.response
    case Bars(rows) => CoveredBarIsUnique(days, Min(s.responseAt.value, s.echo.value.endAt), rows, day);
    case Listings(_, listings) => CoveredListingIsUnique(days, s.responseAt.value, listings, day);
    case Unreadable =>
  }

  /** A bar is sound when its numbers fit together and its session had closed by the limit. */
  lemma {:induction false} BarOkExactlyWhen(days: Days, day: int, bar: Bar, limit: int)
    ensures BarOk(days, day, bar, limit) <==>
      && bar.values.Some?
      && var p := bar.values.value;
      && 0.0 < p.low <= p.open <= p.high && p.low <= p.close <= p.high && p.volume >= 0.0
      && DayOf(days, day).fact.Trading? && DayOf(days, day).fact.closesAt <= limit
  {
  }

  /** A listing is sound when it gives the session's own hours, on its own day, and these have passed. */
  lemma {:induction false} ListingOkExactlyWhen(days: Days, day: int, row: Listing, received: int)
    ensures ListingOk(days, day, row, received) <==>
      && row.hours.Some?
      && var h := row.hours.value;
      && DayOf(days, day).fact == Trading(h.open, h.close)
      && h.open < h.close <= received && h.openDay == h.closeDay == day
  {
  }

  /**
   What coverage of a date says about the raw response: it was received under the committed
   request, holds exactly one row for the date, and that row describes a session already closed
   both when the response arrived and at the requested end.
   */
  lemma {:induction false} CoverageMeansOneSoundBar(z: Zone, days: Days, x: Exchange, dates: seq<int>, i: nat)
    requires Covers(Inspected(z, days, x), dates, false) && i < |dates|
    ensures Complete(x.source) && Clean(z, x) && x.source.response.Bars?
    ensures var dated := BarsDated(x.source.response.rows, dates[i]);
      && |dated| == 1
      && Inspected(z, days, x).bars[dates[i]] == dated[0]
      && BarOk(days, dates[i], dated[0], Min(x.source.responseAt.value, x.source.echo.value.endAt))
    ensures x.attemptAt <= x.source.responseAt.value <= x.recordedAt
  {
    var s := x.source;
    assert dates[i] in Inspected(z, days, x).bars;
    assert s.response.Bars?;
    CoveredBarIsUnique(days, Min(s.responseAt.value, s.echo.value.endAt), s.response.rows, dates[i]);
    var clocks := [
      x.attemptAt, s.startedAt.value, s.identity.value.observedAt, s.dispatchedAt.value, s.responseAt.value,
      s.finishedAt.value, x.recordedAt];
    assert clocks[0] <= clocks[4] <= clocks[6];
  }

  lemma {:induction false} CoverageMeansOneListing(z: Zone, days: Days, x: Exchange, dates: seq<int>, i: nat)
    requires Covers(Inspected(z, days, x), dates, true) && i < |dates|
    ensures Complete(x.source) && Clean(z, x) && x.source.response.Listings?
    ensures var dated := ListingsDated(x.source.response.listings, dates[i]);
      |dated| == 1 && ListingOk(days, dates[i], dated[0], x.source.responseAt.value)
  {
    assert dates[i] in Inspected(z, days, x).completed;
    CoveredListingIsUnique(days, x.source.responseAt.value, x.source.response.listings, dates[i]);
  }

  /** Stable projections carry, date by date, the same single row from two responses. */
  lemma {:induction false} StableMeansSameRows(z: Zone, days: Days, x: Exchange, y: Exchange, dates: seq<int>, i: nat)
    requires Stable(Inspected(z, days, x), Inspected(z, days, y), dates) && i < |dates|
    ensures x.source.response.Bars? && y.source.response.Bars?
    ensures BarsDated(x.source.response.rows, dates[i]) == BarsDated(y.source.response.rows, dates[i])
    ensures |BarsDated(x.source.response.rows, dates[i])| == 1
    ensures QualifiedIdentity(x).Some? && QualifiedIdentity(x) == QualifiedIdentity(y)
  {
    CoverageMeansOneSoundBar(z, days, x, dates, i);
    CoverageMeansOneSoundBar(z, days, y, dates, i);
    assert Inspected(z, days, x).bars[dates[i]] == Inspected(z, days, y).bars[dates[i]];
  }
}
