/**
 The frozen commissioning window: which session a signal may enter, which twenty sessions
 precede it, and the dates an admitted row is given.
 */
module Window {
  import opened Prelude
  import opened Calendar
  import opened LocalTime

  const ENTRY_DEADLINE := 33_600
  const MARKET_OPEN := 34_200
  const EARLY_CLOSE := 46_800
  const MARKET_CLOSE := 57_600
  const RECOVERY_HOUR := 28_800
  const ENTRY_SEARCH := 32
  const HISTORY_SEARCH := 80
  const HISTORY_SESSIONS := 20
  const WINDOW_SESSIONS := 20
  const ENTRY_SESSIONS := 10
  const TWO_HOURS := 7_200 * SECOND

  /** Open days carry the exchange's own hours. */
  ghost predicate ExchangeHours(z: Zone, days: Days) {
    forall d :: DayOf(days, d).fact.Trading? ==>
      && DayOf(days, d).fact.opensAt == z.at(d, MARKET_OPEN)
      && (DayOf(days, d).fact.closesAt == z.at(d, EARLY_CLOSE) || DayOf(days, d).fact.closesAt == z.at(d, MARKET_CLOSE))
  }

  lemma {:induction false} NoticesKeepHours(z: Zone, days: Days, mark: Fact, dates: seq<int>)
    requires ExchangeHours(z, days) && !mark.Trading?
    ensures ExchangeHours(z, Changed(days, mark, dates))
  {
  }

  // ---- entry session --------------------------------------------------------------------

  /** The entry rule applied to one session, with the decision taken at the signal itself. */
  predicate MayEnter(z: Zone, signal: int, session: int) {
    && session >= z.localDay(signal)
    && !(session == z.localDay(signal) && z.localTime(signal) >= ENTRY_DEADLINE)
  }

  function EntryFrom(z: Zone, days: Days, signal: int, day: int, left: nat): Result<int>
    decreases left
  {
    if left == 0 then Rejected("no entry session in bounded calendar search")
    else
      var current := DayOf(days, day);
      if current.fact == Unknown then Rejected("unknown entry calendar")
      else if current.fact.Trading? && MayEnter(z, signal, day) then Ok(day)
      else EntryFrom(z, days, signal, day + 1, left - 1)
  }

  function EntryFor(z: Zone, days: Days, signal: int): Result<int> {
    EntryFrom(z, days, signal, z.localDay(signal), ENTRY_SEARCH)
  }

  /** Never moves a late observation past a session it could still have entered. */
  method SessionFor(z: Zone, days: Days, signal: int) returns (r: Result<int>)
    ensures r == EntryFor(z, days, signal)
  {
    var day := z.localDay(signal);
    for offset := 0 to ENTRY_SEARCH
      invariant EntryFor(z, days, signal) == EntryFrom(z, days, signal, day + offset, ENTRY_SEARCH - offset)
    {
      var current := DayOf(days, day + offset);
      if current.fact == Unknown {
        return Rejected("unknown entry calendar");
      }
      if current.fact.Trading? && MayEnter(z, signal, current.day) {
        return Ok(current.day);
      }
    }
    return Rejected("no entry session in bounded calendar search");
  }

  /** A session whose 09:20 lies after the signal. */
  predicate Enterable(z: Zone, days: Days, signal: int, day: int) {
    DayOf(days, day).fact.Trading? && signal < z.at(day, 33_600)
  }

  lemma {:induction false} MayEnterIsBeforeDeadline(z: Zone, signal: int, day: int)
    requires Valid(z)
    ensures MayEnter(z, signal, day) <==> signal < z.at(day, ENTRY_DEADLINE)
  {
    assert z.at(day, ENTRY_DEADLINE) <= signal <==>
      z.localDay(signal) > day || (z.localDay(signal) == day && z.localTime(signal) >= ENTRY_DEADLINE);
  }

  lemma {:induction false} EntryFromIsFirst(z: Zone, days: Days, signal: int, day: int, left: nat)
    requires Valid(z) && EntryFrom(z, days, signal, day, left).Ok?
    ensures var entry := EntryFrom(z, days, signal, day, left).value;
      && day <= entry && Enterable(z, days, signal, entry)
      && forall d :: day <= d < entry ==> !Enterable(z, days, signal, d)
    decreases left
  {
    MayEnterIsBeforeDeadline(z, signal, day);
    if !Enterable(z, days, signal, day) {
      EntryFromIsFirst(z, days, signal, day + 1, left - 1);
    }
  }

  /** The entry session is the first open day whose deadline is still ahead of the signal. */
  lemma {:induction false} EntryIsFirstReachable(z: Zone, days: Days, signal: int)
    requires Valid(z) && EntryFor(z, days, signal).Ok?
    ensures var entry := EntryFor(z, days, signal).value;
      && Enterable(z, days, signal, entry)
      && forall d :: d < entry ==> !Enterable(z, days, signal, d)
  {
    var entry := EntryFor(z, days, signal).value;
    EntryFromIsFirst(z, days, signal, z.localDay(signal), ENTRY_SEARCH);
    forall d | d < entry ensures !Enterable(z, days, signal, d) {
      MayEnterIsBeforeDeadline(z, signal, d);
    }
  }

  /** Every day from one on before another is known. */
  predicate KnownUntil(days: Days, from: int, to: int) {
    forall d :: from <= d < to ==> DayOf(days, d).fact != Unknown
  }

  lemma {:induction false} EntryFromExistsExactly(z: Zone, days: Days, signal: int, day: int, left: nat)
    requires Valid(z)
    ensures EntryFrom(z, days, signal, day, left).Ok? <==>
      exists d :: day <= d < day + left && Enterable(z, days, signal, d) && KnownUntil(days, day, d)
    decreases left
  {
    if left > 0 {
      MayEnterIsBeforeDeadline(z, signal, day);
      EntryFromExistsExactly(z, days, signal, day + 1, left - 1);
      if EntryFrom(z, days, signal, day, left).Ok? {
        if Enterable(z, days, signal, day) {
          assert KnownUntil(days, day, day);
        } else {
          var d :| day + 1 <= d < day + left && Enterable(z, days, signal, d) && KnownUntil(days, day + 1, d);
          assert KnownUntil(days, day, d);
        }
      }
      if exists d :: day <= d < day + left && Enterable(z, days, signal, d) && KnownUntil(days, day, d) {
        var d :| day <= d < day + left && Enterable(z, days, signal, d) && KnownUntil(days, day, d);
        if d > day {
          assert DayOf(days, day).fact != Unknown;
          assert KnownUntil(days, day + 1, d);
        }
      }
    }
  }

  /** There is an entry exactly when an open day of the next 32 can be entered and no unknown day comes first. */
  lemma {:induction false} EntryExistsExactly(z: Zone, days: Days, signal: int)
    requires Valid(z)
    ensures var today := z.localDay(signal);
      EntryFor(z, days, signal).Ok? <==>
        exists d :: today <= d < today + 32 && Enterable(z, days, signal, d) && KnownUntil(days, today, d)
  {
    EntryFromExistsExactly(z, days, signal, z.localDay(signal), ENTRY_SEARCH);
  }

  /** A later signal never enters an earlier session. */
  lemma {:induction false} EntryMonotone(z: Zone, days: Days, earlier: int, later: int)
    requires Valid(z) && earlier <= later
    requires EntryFor(z, days, earlier).Ok? && EntryFor(z, days, later).Ok?
    ensures EntryFor(z, days, earlier).value <= EntryFor(z, days, later).value
  {
    EntryIsFirstReachable(z, days, earlier);
    EntryIsFirstReachable(z, days, later);
    assert Enterable(z, days, earlier, EntryFor(z, days, later).value);
  }

  // ---- history --------------------------------------------------------------------------

  /** The newest `need` open days at or before `day`, oldest first. */
  function HistoryFrom(days: Days, day: int, need: nat, left: nat): Result<seq<int>> {
    if need == 0 then Ok([])
    else if left == 0 then Rejected("insufficient pre-signal sessions")
    else
      var current := DayOf(days, day);
      if current.fact == Unknown then Rejected("unknown pre-signal calendar")
      else if current.fact == Closed then HistoryFrom(days, day - 1, need, left - 1)
      else
        match HistoryFrom(days, day - 1, need - 1, left - 1)
        case Ok(older) => Ok(older + [day])
        case Rejected(why) => Rejected(why)
  }

  /** Bars of the signal's own date count as complete from 16:00 on. */
  function HistoryDay(z: Zone, signal: int): int {
    z.localDay(signal) - if z.localTime(signal) < MARKET_CLOSE then 1 else 0
  }

  function HistoryFor(z: Zone, days: Days, signal: int): Result<seq<int>> {
    HistoryFrom(days, HistoryDay(z, signal), HISTORY_SESSIONS, HISTORY_SEARCH)
  }

  method HistoryDates(z: Zone, days: Days, signal: int) returns (r: Result<seq<int>>)
    ensures r == HistoryFor(z, days, signal)
  {
    var day := HistoryDay(z, signal);
    var found: seq<int> := [];
    ghost var all := HistoryFor(z, days, signal);
    assert all.Ok? ==> all.value + Reverse(found) == all.value;
    for offset := 0 to HISTORY_SEARCH
      invariant |found| < HISTORY_SESSIONS
      invariant var older := HistoryFrom(days, day - offset, HISTORY_SESSIONS - |found|, HISTORY_SEARCH - offset);
        all == if older.Ok? then Ok(older.value + Reverse(found)) else older
    {
      var current := DayOf(days, day - offset);
      if current.fact == Unknown {
        return Rejected("unknown pre-signal calendar");
      }
      if current.fact.Trading? {
        ghost var older :=
          HistoryFrom(days, day - offset - 1, HISTORY_SESSIONS - |found| - 1, HISTORY_SEARCH - offset - 1);
        assert Init(found + [current.day]) == found;
        assert older.Ok? ==>
          (older.value + [current.day]) + Reverse(found) == older.value + ([current.day] + Reverse(found));
        found := found + [current.day];
        if |found| == HISTORY_SESSIONS {
          assert [] + Reverse(found) == Reverse(found);
          return Ok(Reverse(found));
        }
      }
    }
    return Rejected("insufficient pre-signal sessions");
  }

  function OpenCount(days: Days, from: int, through: int): nat
    decreases through - from
  {
    if from > through then 0
    else OpenCount(days, from, through - 1) + if DayOf(days, through).fact.Trading? then 1 else 0
  }

  /** Widening a range keeps every open day it had, and gains its new first day if that is open. */
  lemma {:induction false} OpenCountGrows(days: Days, a: int, from: int, through: int, b: int)
    requires a < from && from - 1 <= through <= b && DayOf(days, a).fact.Trading?
    ensures OpenCount(days, from, through) + 1 <= OpenCount(days, a, b)
    decreases b - from, through
  {
    if through < b {
      if from - 1 < b {
        OpenCountGrows(days, a, from, through, b - 1);
      }
    } else if from - 1 < through {
      OpenCountGrows(days, a, from, through - 1, b - 1);
    } else if a < through {
      OpenCountGrows(days, a, through, through - 1, b - 1);
    }
  }

  lemma {:induction false} HistoryIsOpenDays(days: Days, day: int, need: nat, left: nat)
    requires HistoryFrom(days, day, need, left).Ok?
    ensures var h := HistoryFrom(days, day, need, left).value;
      && |h| == need
      && (forall i :: 0 <= i < need ==> h[i] <= day && DayOf(days, h[i]).fact.Trading?)
      && (forall i, j :: 0 <= i < j < need ==> h[i] < h[j])
      && (need > 0 ==> OpenCount(days, h[0], day) == need)
    decreases left
  {
    if need > 0 {
      var current := DayOf(days, day);
      if current.fact == Closed {
        HistoryIsOpenDays(days, day - 1, need, left - 1);
      } else {
        HistoryIsOpenDays(days, day - 1, need - 1, left - 1);
        if need == 1 {
          assert OpenCount(days, day, day - 1) == 0;
        }
      }
    }
  }

  /** All days from one through another are known, and so many of them are open. */
  predicate Holds(days: Days, from: int, through: int, count: nat) {
    OpenCount(days, from, through) == count && KnownUntil(days, from, through + 1)
  }

  lemma {:induction false} HistoryFromExistsExactly(days: Days, day: int, need: nat, left: nat)
    ensures HistoryFrom(days, day, need, left).Ok? <==>
      need == 0 || exists from :: day - left < from <= day && Holds(days, from, day, need)
    decreases left
  {
    if need == 0 || left == 0 {
    } else if DayOf(days, day).fact == Unknown {
    } else {
      var rest := if DayOf(days, day).fact == Closed then need else need - 1;
      HistoryFromExistsExactly(days, day - 1, rest, left - 1);
      assert OpenCount(days, day, day - 1) == 0;
      if rest == 0 {
        assert Holds(days, day, day, need);
      } else {
        if HistoryFrom(days, day - 1, rest, left - 1).Ok? {
          var from :| day - left < from < day && Holds(days, from, day - 1, rest);
          assert Holds(days, from, day, need);
        }
        forall from | day - left < from <= day && Holds(days, from, day, need)
          ensures HistoryFrom(days, day - 1, rest, left - 1).Ok?
        {
          assert from < day && Holds(days, from, day - 1, rest);
        }
      }
    }
  }

  /** There is a history exactly when some day of the last eighty has twenty open days since, all known. */
  lemma {:induction false} HistoryExistsExactly(z: Zone, days: Days, signal: int)
    ensures var day := HistoryDay(z, signal);
      HistoryFor(z, days, signal).Ok? <==> exists from :: day - 80 < from <= day && Holds(days, from, day, 20)
  {
    HistoryFromExistsExactly(days, HistoryDay(z, signal), HISTORY_SESSIONS, HISTORY_SEARCH);
  }

  lemma {:induction false} HistoryHasEveryOpenDay(days: Days, day: int, need: nat, left: nat, d: int)
    requires HistoryFrom(days, day, need, left).Ok? && need > 0
    ensures var h := HistoryFrom(days, day, need, left).value;
      |h| == need && (h[0] <= d <= day && DayOf(days, d).fact.Trading? ==> d in h)
    decreases left
  {
    HistoryIsOpenDays(days, day, need, left);
    if DayOf(days, day).fact == Closed {
      HistoryHasEveryOpenDay(days, day - 1, need, left - 1, d);
    } else if need > 1 {
      HistoryHasEveryOpenDay(days, day - 1, need - 1, left - 1, d);
      HistoryIsOpenDays(days, day - 1, need - 1, left - 1);
    }
  }

  /**
   The history is twenty open days, ends with the newest whose 16:00 had passed at the signal, and
   leaves out none in between.
   */
  lemma {:induction false} HistoryIsNewestComplete(z: Zone, days: Days, signal: int, d: int)
    requires Valid(z) && HistoryFor(z, days, signal).Ok?
    ensures var h := HistoryFor(z, days, signal).value;
      && |h| == 20
      && (forall i, j :: 0 <= i < j < 20 ==> h[i] < h[j])
      && (d in h <==> h[0] <= d && DayOf(days, d).fact.Trading? && z.at(d, 57_600) <= signal)
  {
    HistoryIsOpenDays(days, HistoryDay(z, signal), HISTORY_SESSIONS, HISTORY_SEARCH);
    HistoryHasEveryOpenDay(days, HistoryDay(z, signal), HISTORY_SESSIONS, HISTORY_SEARCH, d);
    assert z.at(d, MARKET_CLOSE) <= signal <==> d <= HistoryDay(z, signal);
    var h := HistoryFor(z, days, signal).value;
    if d in h {
      var i :| 0 <= i < |h| && h[i] == d;
      assert i > 0 ==> h[0] < h[i];
    }
  }

  /** A later signal never reaches back before the history of an earlier one. */
  lemma {:induction false} HistoryMonotone(z: Zone, days: Days, earlier: int, later: int)
    requires Valid(z) && earlier <= later
    requires HistoryFor(z, days, earlier).Ok? && HistoryFor(z, days, later).Ok?
    ensures |HistoryFor(z, days, earlier).value| == |HistoryFor(z, days, later).value| == HISTORY_SESSIONS
    ensures HistoryFor(z, days, earlier).value[0] <= HistoryFor(z, days, later).value[0]
  {
    var a, b := HistoryFor(z, days, earlier).value, HistoryFor(z, days, later).value;
    HistoryIsOpenDays(days, HistoryDay(z, earlier), HISTORY_SESSIONS, HISTORY_SEARCH);
    HistoryIsOpenDays(days, HistoryDay(z, later), HISTORY_SESSIONS, HISTORY_SEARCH);
    HistoryDayMonotone(z, earlier, later);
    if b[0] < a[0] {
      OpenCountGrows(days, b[0], a[0], HistoryDay(z, earlier), HistoryDay(z, later));
    }
  }

  lemma {:induction false} HistoryDayMonotone(z: Zone, earlier: int, later: int)
    requires Valid(z) && earlier <= later
    ensures HistoryDay(z, earlier) <= HistoryDay(z, later)
  {
    LocalDayMonotone(z, earlier, later);
    if z.localTime(earlier) >= MARKET_CLOSE {
      assert z.at(z.localDay(earlier), MARKET_CLOSE) <= earlier;
      assert z.at(z.localDay(earlier), MARKET_CLOSE) <= later;
    }
  }

  // ---- the frozen manifest ----------------------------------------------------------------

  /** `provenance` stands for the reviewed revision, references, digests and source inventory. */
  datatype Manifest = Manifest(
    boundary: int,
    createdAt: int,
    provenance: string,
    calendarVersion: string,
    calendarObservedAt: int,
    sessions: seq<Day>,
    earliestHistory: int,
    enrollmentEnd: int,
    recoveryDeadline: int)

  function DaysOf(sessions: seq<Day>): (r: seq<int>)
    ensures |r| == |sessions| && forall i :: 0 <= i < |r| ==> r[i] == sessions[i].day
  {
    seq(|sessions|, i requires 0 <= i < |sessions| => sessions[i].day)
  }

  function EntrySessions(m: Manifest): seq<int>
    requires |m.sessions| == WINDOW_SESSIONS
  {
    DaysOf(m.sessions)[..ENTRY_SESSIONS]
  }

  /** The contract derived from one calendar version and a boundary; `provenanceOk` covers the text checks. */
  function Derived(
    z: Zone, v: Version, boundary: int, createdAt: int, provenance: string, provenanceOk: bool): (r: Result<Manifest>)
    ensures r.Ok? ==> |r.value.sessions| == WINDOW_SESSIONS
  {
    if boundary < createdAt + TWO_HOURS || v.observedAt > createdAt || !provenanceOk then
      Rejected("invalid prospective commissioning provenance")
    else
      match EntryFor(z, v.days, boundary)
      case Rejected(why) => Rejected(why)
      case Ok(anchor) =>
        match BindResult(v, anchor, WINDOW_SESSIONS)
        case Rejected(why) => Rejected(why)
        case Ok(binding) =>
          match HistoryFor(z, v.days, boundary)
          case Rejected(why) => Rejected(why)
          case Ok(prehistory) =>
            HistoryIsOpenDays(v.days, HistoryDay(z, boundary), HISTORY_SESSIONS, HISTORY_SEARCH);
            var s := binding.sessions;
            Ok(Manifest(
              boundary, createdAt, provenance, v.digest, v.observedAt, s, prehistory[0],
              z.at(s[9].day, ENTRY_DEADLINE),
              z.at(Max(s[18].day + 5, s[19].day + 3), RECOVERY_HOUR)))
  }

  /** A stored manifest is valid exactly when it equals its own derivation. */
  predicate ValidManifest(z: Zone, v: Version, m: Manifest, provenanceOk: bool) {
    Derived(z, v, m.boundary, m.createdAt, m.provenance, provenanceOk) == Ok(m)
  }

  // ---- admission ----------------------------------------------------------------------------

  datatype Membership = Unassignable | Outside | Admitted | Preexisting

  /** The fields of a source row that admission reads; an unreadable instant is `None`. */
  datatype SourceRow = SourceRow(signalAt: Option<int>, symbolValid: bool, entrySession: Option<int>)

  datatype Dates = Dates(history: seq<int>, horizon: seq<int>, stability: int)

  datatype Admission = Admission(
    membership: Membership,
    reason: string,
    symbolValid: bool,
    firstObservedAt: int,
    observedBeforeDecision: bool,
    entry: Option<int>,
    recordedEntryAgrees: bool,
    decisionCutoff: Option<int>,
    dates: Option<Dates>)

  /** Classifies a row, fixing its membership before its dates are looked up. */
  method Admit(z: Zone, row: SourceRow, m: Manifest, v: Version, firstObservedAt: int) returns (r: Admission)
    requires |m.sessions| == WINDOW_SESSIONS
    ensures r.symbolValid == row.symbolValid && r.firstObservedAt == firstObservedAt
    ensures r.membership == MembershipOf(z, row, m, v, firstObservedAt)
    ensures r.membership == Admitted ==>
      var entry := EntryFor(z, v.days, row.signalAt.value).value;
      && r.entry == Some(entry)
      && r.recordedEntryAgrees == (row.entrySession == Some(entry))
      && r.decisionCutoff == Some(z.at(entry, ENTRY_DEADLINE))
      && r.observedBeforeDecision == (firstObservedAt < z.at(entry, ENTRY_DEADLINE))
      && r.dates == DatesFor(z, v, row.signalAt.value, entry)
      && (r.dates.Some? ==> r.reason == (if row.symbolValid then "included" else "invalid_symbol"))
    ensures r.membership == Admitted && r.dates == None ==> r.reason == "invalid_source_or_calendar"
    ensures r.membership != Admitted ==> r.entry == None && r.dates == None && !r.observedBeforeDecision
    ensures r.membership == Unassignable ==>
      r.reason == if row.signalAt.Some? && row.signalAt.value > firstObservedAt
      then "signal_clock_in_future" else "invalid_source_or_calendar"
    ensures r.membership == Outside ==>
      r.reason == if row.signalAt.value < m.boundary then "before_boundary"
      else if row.signalAt.value >= m.enrollmentEnd then "after_enrollment_cutoff" else "entry_outside_window"
  {
    r := Admission(Unassignable, "", row.symbolValid, firstObservedAt, false, None, false, None, None);
    if row.signalAt == None {
      return r.(reason := "invalid_source_or_calendar");
    }
    var signal := row.signalAt.value;
    if signal > firstObservedAt {
      return r.(reason := "signal_clock_in_future");
    }
    if signal < m.boundary {
      return r.(membership := Outside, reason := "before_boundary");
    }
    if signal >= m.enrollmentEnd {
      return r.(membership := Outside, reason := "after_enrollment_cutoff");
    }
    var entry := SessionFor(z, v.days, signal);
    if entry.Rejected? {
      return r.(reason := "invalid_source_or_calendar");
    }
    if entry.value !in EntrySessions(m) {
      return r.(membership := Outside, reason := "entry_outside_window");
    }
    var cutoff := z.at(entry.value, ENTRY_DEADLINE);
    r := r.(
      membership := Admitted,
      reason := if r.symbolValid then "included" else "invalid_symbol",
      entry := Some(entry.value),
      recordedEntryAgrees := row.entrySession == Some(entry.value),
      decisionCutoff := Some(cutoff),
      observedBeforeDecision := firstObservedAt < cutoff);
    var history := HistoryDates(z, v.days, signal);
    if history.Rejected? {
      return r.(reason := "invalid_source_or_calendar");
    }
    var horizon := Bind(v, entry.value, 10);
    if horizon.Rejected? {
      return r.(reason := "invalid_source_or_calendar");
    }
    var stability := Bind(v, entry.value, 11);
    if stability.Rejected? {
      return r.(reason := "invalid_source_or_calendar");
    }
    r := r.(dates := Some(Dates(history.value, DaysOf(horizon.value.sessions), Last(stability.value.sessions).day)));
  }

  function MembershipOf(z: Zone, row: SourceRow, m: Manifest, v: Version, firstObservedAt: int): (r: Membership)
    requires |m.sessions| == WINDOW_SESSIONS
    ensures r == Admitted ==> row.signalAt.Some? && EntryFor(z, v.days, row.signalAt.value).Ok?
  {
    if row.signalAt == None || row.signalAt.value > firstObservedAt then Unassignable
    else if !(m.boundary <= row.signalAt.value < m.enrollmentEnd) then Outside
    else
      match EntryFor(z, v.days, row.signalAt.value)
      case Rejected(_) => Unassignable
      case Ok(entry) => if entry in EntrySessions(m) then Admitted else Outside
  }

  function DatesFor(z: Zone, v: Version, signal: int, entry: int): Option<Dates> {
    var history := HistoryFor(z, v.days, signal);
    var horizon := BindResult(v, entry, 10);
    var stability := BindResult(v, entry, 11);
    if history.Ok? && horizon.Ok? && stability.Ok?
    then Some(Dates(history.value, DaysOf(horizon.value.sessions), Last(stability.value.sessions).day))
    else None
  }

  // ---- containment ------------------------------------------------------------------------------

  /** A frozen manifest binds twenty sessions from the entry of its own boundary. */
  lemma {:induction false} ManifestSessions(z: Zone, v: Version, m: Manifest, provenanceOk: bool)
    requires Valid(z) && ValidManifest(z, v, m, provenanceOk)
    ensures EntryFor(z, v.days, m.boundary).Ok?
    ensures BindResult(v, EntryFor(z, v.days, m.boundary).value, WINDOW_SESSIONS).Ok?
    ensures BindResult(v, EntryFor(z, v.days, m.boundary).value, WINDOW_SESSIONS).value.sessions == m.sessions
    ensures |m.sessions| == WINDOW_SESSIONS
    ensures forall i :: 0 <= i < WINDOW_SESSIONS ==>
      DayOf(v.days, m.sessions[i].day) == m.sessions[i] && m.sessions[i].fact.Trading?
    ensures forall i, j :: 0 <= i < j < WINDOW_SESSIONS ==> m.sessions[i].day < m.sessions[j].day
    ensures HistoryFor(z, v.days, m.boundary).Ok?
    ensures |HistoryFor(z, v.days, m.boundary).value| == HISTORY_SESSIONS
    ensures m.earliestHistory == HistoryFor(z, v.days, m.boundary).value[0]
  {
    SessionsAreOpenDays(v.days, EntryFor(z, v.days, m.boundary).value, WINDOW_SESSIONS);
    HistoryIsOpenDays(v.days, HistoryDay(z, m.boundary), HISTORY_SESSIONS, HISTORY_SEARCH);
  }

  /**
   A signal inside the enrollment period can only enter one of the ten entry sessions, so the
   `entry_outside_window` answer is never given for it.
   */
  lemma {:induction false} EnrolledEntryIsFrozen(z: Zone, v: Version, m: Manifest, provenanceOk: bool, signal: int)
    requires Valid(z) && ValidManifest(z, v, m, provenanceOk)
    requires m.boundary <= signal < m.enrollmentEnd && EntryFor(z, v.days, signal).Ok?
    ensures |m.sessions| == WINDOW_SESSIONS
    ensures exists i :: 0 <= i < ENTRY_SESSIONS && m.sessions[i].day == EntryFor(z, v.days, signal).value
    ensures EntryFor(z, v.days, signal).value in EntrySessions(m)
  {
    ManifestSessions(z, v, m, provenanceOk);
    var anchor, entry := EntryFor(z, v.days, m.boundary).value, EntryFor(z, v.days, signal).value;
    EntryMonotone(z, v.days, m.boundary, signal);
    EntryIsFirstReachable(z, v.days, signal);
    assert Enterable(z, v.days, signal, m.sessions[9].day);
    assert anchor <= entry <= m.sessions[9].day;
    SessionsSkipOnlyClosed(v.days, anchor, WINDOW_SESSIONS, entry);
    var i :| 0 <= i < WINDOW_SESSIONS && m.sessions[i] == DayOf(v.days, entry);
    assert i < ENTRY_SESSIONS;
    assert EntrySessions(m)[i] == entry;
  }

  /** From the boundary on a signal enters one of the ten entry sessions exactly before the enrollment end. */
  lemma {:induction false} EnrollmentIsExact(z: Zone, v: Version, m: Manifest, provenanceOk: bool, signal: int)
    requires Valid(z) && ValidManifest(z, v, m, provenanceOk)
    requires m.boundary <= signal && EntryFor(z, v.days, signal).Ok?
    ensures |m.sessions| == WINDOW_SESSIONS
    ensures EntryFor(z, v.days, signal).value in DaysOf(m.sessions)[..10] <==> signal < m.enrollmentEnd
  {
    ManifestSessions(z, v, m, provenanceOk);
    if signal < m.enrollmentEnd {
      EnrolledEntryIsFrozen(z, v, m, provenanceOk, signal);
    } else {
      var entry := EntryFor(z, v.days, signal).value;
      EntryIsFirstReachable(z, v.days, signal);
      AtOrder(z, m.sessions[9].day, ENTRY_DEADLINE, entry, ENTRY_DEADLINE);
    }
  }

  /**
   The manifest is made at least two hours before its boundary from a version observed by then, and
   recovery ends at the first eight o'clock that leaves five days after the nineteenth session and three
   after the twentieth.
   */
  lemma {:induction false} ManifestIsProspective(z: Zone, v: Version, m: Manifest, provenanceOk: bool, day: int)
    requires Valid(z) && ValidManifest(z, v, m, provenanceOk)
    ensures |m.sessions| == WINDOW_SESSIONS
    ensures m.boundary - m.createdAt >= 2 * 60 * 60 * SECOND && v.observedAt <= m.createdAt
    ensures m.calendarVersion == v.digest && m.calendarObservedAt == v.observedAt
    ensures m.recoveryDeadline <= z.at(day, 28_800) <==> m.sessions[18].day + 5 <= day && m.sessions[19].day + 3 <= day
    ensures z.localTime(m.recoveryDeadline) == 28_800
  {
    var deadlineDay := Max(m.sessions[18].day + 5, m.sessions[19].day + 3);
    AtOrder(z, day, RECOVERY_HOUR, deadlineDay, RECOVERY_HOUR);
    assert z.localDay(z.at(day, RECOVERY_HOUR)) == day;
  }

  /** A row inside the enrollment period is admitted, unless the bounded calendar search finds no session. */
  lemma {:induction false} EnrolledRowsAreAdmitted(
    z: Zone, v: Version, m: Manifest, provenanceOk: bool, row: SourceRow, firstObservedAt: int)
    requires Valid(z) && ValidManifest(z, v, m, provenanceOk)
    requires row.signalAt.Some? && m.boundary <= row.signalAt.value < m.enrollmentEnd
    requires row.signalAt.value <= firstObservedAt
    ensures |m.sessions| == WINDOW_SESSIONS
    ensures MembershipOf(z, row, m, v, firstObservedAt) ==
      if EntryFor(z, v.days, row.signalAt.value).Ok? then Admitted else Unassignable
  {
    if EntryFor(z, v.days, row.signalAt.value).Ok? {
      EnrolledEntryIsFrozen(z, v, m, provenanceOk, row.signalAt.value);
    }
  }

  /** Which rows are outside, unassignable and admitted; no row is preexisting. */
  lemma {:induction false} MembershipDecided(
    z: Zone, v: Version, m: Manifest, provenanceOk: bool, row: SourceRow, firstObservedAt: int)
    requires Valid(z) && ValidManifest(z, v, m, provenanceOk)
    ensures |m.sessions| == WINDOW_SESSIONS
    ensures var r, known := MembershipOf(z, row, m, v, firstObservedAt),
                            row.signalAt.Some? && row.signalAt.value <= firstObservedAt;
      && (r == Outside <==> known && (row.signalAt.value < m.boundary || m.enrollmentEnd <= row.signalAt.value))
      && (r == Admitted <==>
            && known && m.boundary <= row.signalAt.value < m.enrollmentEnd
            && EntryFor(z, v.days, row.signalAt.value).Ok?)
      && r != Preexisting
  {
    if row.signalAt.Some? && row.signalAt.value <= firstObservedAt
      && m.boundary <= row.signalAt.value < m.enrollmentEnd
    {
      EnrolledRowsAreAdmitted(z, v, m, provenanceOk, row, firstObservedAt);
    }
  }

  /**
   Every admitted row's horizon is ten consecutive frozen sessions from its entry, its stability
   session is the next frozen one, its history starts no earlier than the frozen history, its
   decision cutoff lies after the signal, and its last horizon close precedes the recovery deadline.
   Only the bounded history search can leave an admitted row without dates.
   */
  lemma {:induction false} AdmittedDatesAreContained(
    z: Zone, v: Version, m: Manifest, provenanceOk: bool, row: SourceRow, firstObservedAt: int)
    returns (i: nat)
    requires Valid(z) && ExchangeHours(z, v.days) && ValidManifest(z, v, m, provenanceOk)
    requires MembershipOf(z, row, m, v, firstObservedAt) == Admitted
    ensures i < ENTRY_SESSIONS && |m.sessions| == WINDOW_SESSIONS
    ensures var signal, entry := row.signalAt.value, EntryFor(z, v.days, row.signalAt.value).value;
      && m.sessions[i].day == entry
      && signal < z.at(entry, ENTRY_DEADLINE)
      && (DatesFor(z, v, signal, entry).Some? <==> HistoryFor(z, v.days, signal).Ok?)
      && (DatesFor(z, v, signal, entry).Some? ==>
            var dates := DatesFor(z, v, signal, entry).value;
            && dates.horizon == DaysOf(m.sessions)[i..i + 10]
            && dates.stability == m.sessions[i + 10].day
            && |dates.history| == HISTORY_SESSIONS
            && (forall k :: 0 <= k < HISTORY_SESSIONS ==> m.earliestHistory <= dates.history[k] < entry)
            && DayOf(v.days, dates.horizon[9]).fact.Trading?
            && DayOf(v.days, dates.horizon[9]).fact.closesAt < m.recoveryDeadline)
  {
    var signal := row.signalAt.value;
    i := FrozenEntry(z, v, m, provenanceOk, signal);
    DatesAreSlices(z, v, m, provenanceOk, signal, i);
    LastCloseBeforeRecovery(z, v, m, provenanceOk, i);
  }

  lemma {:induction false} FrozenEntry(z: Zone, v: Version, m: Manifest, provenanceOk: bool, signal: int)
    returns (i: nat)
    requires Valid(z) && ValidManifest(z, v, m, provenanceOk) && EntryFor(z, v.days, signal).Ok?
    requires m.boundary <= signal < m.enrollmentEnd
    ensures i < ENTRY_SESSIONS && |m.sessions| == WINDOW_SESSIONS
    ensures m.sessions[i].day == EntryFor(z, v.days, signal).value
    ensures signal < z.at(m.sessions[i].day, ENTRY_DEADLINE)
  {
    EnrolledEntryIsFrozen(z, v, m, provenanceOk, signal);
    EntryIsFirstReachable(z, v.days, signal);
    i :| 0 <= i < ENTRY_SESSIONS && m.sessions[i].day == EntryFor(z, v.days, signal).value;
  }

  lemma {:induction false} DatesAreSlices(
    z: Zone, v: Version, m: Manifest, provenanceOk: bool, signal: int, i: nat)
    requires Valid(z) && ValidManifest(z, v, m, provenanceOk) && i < ENTRY_SESSIONS && m.boundary <= signal
    requires EntryFor(z, v.days, signal).Ok? && |m.sessions| == WINDOW_SESSIONS
    requires m.sessions[i].day == EntryFor(z, v.days, signal).value
    ensures var dates := DatesFor(z, v, signal, m.sessions[i].day);
      && (dates.Some? <==> HistoryFor(z, v.days, signal).Ok?)
      && (dates.Some? ==>
            && dates.value.horizon == DaysOf(m.sessions)[i..i + 10]
            && dates.value.stability == m.sessions[i + 10].day
            && |dates.value.history| == HISTORY_SESSIONS
            && (forall k :: 0 <= k < HISTORY_SESSIONS ==>
                  m.earliestHistory <= dates.value.history[k] < m.sessions[i].day)
            && DayOf(v.days, dates.value.horizon[9]) == m.sessions[i + 9])
  {
    HorizonIsFrozenSlice(z, v, m, provenanceOk, i);
    if HistoryFor(z, v.days, signal).Ok? {
      HistoryIsContained(z, v, m, provenanceOk, signal);
    }
  }

  /** The decision is due before the session opens. */
  lemma {:induction false} DecisionBeforeOpen(z: Zone, days: Days, day: int)
    requires Valid(z) && ExchangeHours(z, days) && DayOf(days, day).fact.Trading?
    ensures z.at(day, ENTRY_DEADLINE) < DayOf(days, day).fact.opensAt < DayOf(days, day).fact.closesAt
  {
    AtOrder(z, day, ENTRY_DEADLINE, day, MARKET_OPEN);
    AtOrder(z, day, MARKET_OPEN, day, EARLY_CLOSE);
    AtOrder(z, day, MARKET_OPEN, day, MARKET_CLOSE);
  }

  lemma {:induction false} HorizonIsFrozenSlice(z: Zone, v: Version, m: Manifest, provenanceOk: bool, i: nat)
    requires Valid(z) && ValidManifest(z, v, m, provenanceOk) && i < ENTRY_SESSIONS
    ensures |m.sessions| == WINDOW_SESSIONS
    ensures var horizon := BindResult(v, m.sessions[i].day, 10);
      horizon.Ok? && DaysOf(horizon.value.sessions) == DaysOf(m.sessions)[i..i + 10]
    ensures var stability := BindResult(v, m.sessions[i].day, 11);
      stability.Ok? && |stability.value.sessions| == 11 && Last(stability.value.sessions).day == m.sessions[i + 10].day
    ensures DayOf(v.days, m.sessions[i + 9].day) == m.sessions[i + 9]
  {
    ManifestSessions(z, v, m, provenanceOk);
    var anchor := EntryFor(z, v.days, m.boundary).value;
    BindTail(v, anchor, WINDOW_SESSIONS, i, 10);
    BindTail(v, anchor, WINDOW_SESSIONS, i, 11);
  }

  lemma {:induction false} HistoryIsContained(z: Zone, v: Version, m: Manifest, provenanceOk: bool, signal: int)
    requires Valid(z) && ValidManifest(z, v, m, provenanceOk) && m.boundary <= signal
    requires EntryFor(z, v.days, signal).Ok? && HistoryFor(z, v.days, signal).Ok?
    ensures var h := HistoryFor(z, v.days, signal).value;
      && |h| == HISTORY_SESSIONS
      && forall k :: 0 <= k < HISTORY_SESSIONS ==> m.earliestHistory <= h[k] < EntryFor(z, v.days, signal).value
  {
    ManifestSessions(z, v, m, provenanceOk);
    HistoryMonotone(z, v.days, m.boundary, signal);
    HistoryIsOpenDays(v.days, HistoryDay(z, signal), HISTORY_SESSIONS, HISTORY_SEARCH);
    EntryIsFirstReachable(z, v.days, signal);
    HistoryBeforeEntry(z, v, signal, EntryFor(z, v.days, signal).value);
    var h := HistoryFor(z, v.days, signal).value;
    forall k | 0 <= k < HISTORY_SESSIONS ensures m.earliestHistory <= h[k] < EntryFor(z, v.days, signal).value {
      if k > 0 {
        assert h[0] < h[k];
      }
    }
  }

  lemma {:induction false} HistoryBeforeEntry(z: Zone, v: Version, signal: int, entry: int)
    requires Valid(z) && signal < z.at(entry, ENTRY_DEADLINE)
    ensures HistoryDay(z, signal) < entry
  {
    MayEnterIsBeforeDeadline(z, signal, entry);
  }

  lemma {:induction false} LastCloseBeforeRecovery(z: Zone, v: Version, m: Manifest, provenanceOk: bool, i: nat)
    requires Valid(z) && ExchangeHours(z, v.days) && ValidManifest(z, v, m, provenanceOk) && i < ENTRY_SESSIONS
    ensures |m.sessions| == WINDOW_SESSIONS
    ensures m.sessions[i + 9].fact.Trading? && m.sessions[i + 9].fact.closesAt < m.recoveryDeadline
  {
    ManifestSessions(z, v, m, provenanceOk);
    var s := m.sessions;
    SessionBeforeLast(v, m, i + 9);
    ClosesByEvening(z, v.days, s[i + 9].day);
    AtOrder(z, s[i + 9].day, MARKET_CLOSE, Max(s[18].day + 5, s[19].day + 3), RECOVERY_HOUR);
  }

  lemma {:induction false} SessionBeforeLast(v: Version, m: Manifest, k: nat)
    requires |m.sessions| == WINDOW_SESSIONS && k < 19
    requires forall i :: 0 <= i < WINDOW_SESSIONS ==>
      m.sessions[i] == DayOf(v.days, m.sessions[i].day) && m.sessions[i].fact.Trading?
    requires forall i, j :: 0 <= i < j < WINDOW_SESSIONS ==> m.sessions[i].day < m.sessions[j].day
    ensures m.sessions[k].day <= m.sessions[18].day
    ensures m.sessions[k].fact.Trading? && DayOf(v.days, m.sessions[k].day) == m.sessions[k]
  {
  }

  lemma {:induction false} ClosesByEvening(z: Zone, days: Days, day: int)
    requires Valid(z) && ExchangeHours(z, days) && DayOf(days, day).fact.Trading?
    ensures DayOf(days, day).fact.closesAt <= z.at(day, MARKET_CLOSE)
  {
    AtOrder(z, day, EARLY_CLOSE, day, MARKET_CLOSE);
  }
}
