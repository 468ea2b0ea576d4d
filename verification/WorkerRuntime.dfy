/**
 The journal as one worker process sees it: recording events, sealing what was loaded, replaying a
 sealed report, and the worker object whose methods run inside the locks.

 The report is an uninterpreted function of the records, the calendar versions and an instant; it
 may raise.  Only its digest is stored.
 */
module WorkerRuntime {
  import opened Prelude
  import opened Calendar
  import opened LocalTime
  import opened Evidence
  import Journal
  import Receipts

  type Codec = Journal.Codec<Payload>
  type Event = Journal.Event<Payload>

  datatype Reporter = Reporter(sha: (seq<Row>, seq<Version>, int) -> Option<string>)

  datatype Setup = Setup(codec: Codec, reporter: Reporter, deadline: int)

  // ---- sealing and replaying -------------------------------------------------------------------------

  function Material(records: seq<Row>, versions: seq<Version>, now: int, reportSha: string): SealMaterial
    requires records != [] && versions != []
  {
    SealMaterial(now, |versions|, Last(versions).digest, Last(records).sequence, Last(records).sha, reportSha)
  }

  /** The journal after a seal is attempted on what was loaded; any exception leaves it as it was. */
  function Sealed(u: Setup, rows: seq<Row>, records: seq<Row>, versions: seq<Version>, now: int, at: int): seq<Row>
    requires records != [] && versions != []
  {
    if Last(records).kind == Journal.Seal || now < u.deadline then rows
    else
      match u.reporter.sha(records, versions, now)
      case None => rows
      case Some(sha) => Appended(u, rows, SealEvent(records, versions, now, sha, at))
  }

  function SealEvent(records: seq<Row>, versions: seq<Version>, now: int, sha: string, at: int): Event
    requires records != [] && versions != []
  {
    Journal.Event(Journal.Seal, Journal.SINGLETON, SealOf(Material(records, versions, now, sha)), at)
  }

  function Appended(u: Setup, rows: seq<Row>, ev: Event): (r: seq<Row>)
    ensures rows != [] ==> r != []
  {
    match Journal.Step(u.codec, rows, ev)
    case Ok(next) => next
    case Rejected(_) => rows
  }

  /** Checks a sealed journal against itself, the calendar prefix it names and a recomputed report. */
  function Status(u: Setup, rows: seq<Row>, versions: seq<Version>): Result<SealMaterial> {
    if |rows| < 2 || Last(rows).kind != Journal.Seal || !TypedRow(Last(rows)) then Rejected("not sealed")
    else
      var m, prior := Last(rows).raw.envelope.payload.material, Init(rows);
      if (m.watermarkSequence, m.watermarkSha) != (Last(prior).sequence, Last(prior).sha) then
        Rejected("seal_watermark_mismatch")
      else if !(1 <= m.calendarSequence <= |versions|) || versions[m.calendarSequence - 1].digest != m.calendarSha then
        Rejected("seal_calendar_head_mismatch")
      else if u.reporter.sha(prior, versions[..m.calendarSequence], m.reportAsOf) != Some(m.reportSha) then
        Rejected("seal_report_digest_mismatch")
      else Ok(m)
  }

  function AttemptEvent(request: Receipts.Intent, at: int): Event {
    Journal.Event(Journal.Attempt, "network", IntentOf(request), at)
  }

  lemma {:induction false} AppendKeepsAccepted(u: Setup, rows: seq<Row>, ev: Event)
    requires Journal.Accepted(u.codec, rows)
    ensures Journal.Accepted(u.codec, Appended(u, rows, ev))
    ensures Appended(u, rows, ev) == rows || Appended(u, rows, ev) == rows + [Journal.NewRow(u.codec, rows, ev)]
    ensures Last(rows).kind == Journal.Seal ==> Appended(u, rows, ev) == rows
  {
    if Appended(u, rows, ev) != rows {
      Journal.FirstNoneIsLatestNone(rows, ev.kind, ev.entity);
      Journal.InsertKeepsChain(u.codec, rows, ev);
    }
  }

  /** A status that succeeds keeps succeeding, with the same answer, however the calendar grows. */
  lemma {:induction false} StatusSurvivesExtension(
    u: Setup, rows: seq<Row>, versions: seq<Version>, later: seq<Version>)
    requires Status(u, rows, versions).Ok? && versions <= later
    ensures Status(u, rows, later) == Status(u, rows, versions)
  {
    var n := Status(u, rows, versions).value.calendarSequence;
    assert later[..n] == versions[..n];
  }

  lemma {:induction false} FreshSealReplays(
    u: Setup, rows: seq<Row>, versions: seq<Version>, later: seq<Version>, now: int, sha: string, at: int)
    requires Journal.Accepted(u.codec, rows) && versions != [] && versions <= later
    requires u.reporter.sha(rows, versions, now) == Some(sha)
    ensures var next := rows + [Journal.NewRow(u.codec, rows, SealEvent(rows, versions, now, sha, at))];
      Status(u, next, later) == Ok(Material(rows, versions, now, sha))
  {
    var next := rows + [Journal.NewRow(u.codec, rows, SealEvent(rows, versions, now, sha, at))];
    assert Init(next) == rows;
    assert later[..|versions|] == versions;
  }

  // ---- heartbeats --------------------------------------------------------------------------------------

  const HEARTBEAT := 300 * SECOND

  function CycleEvent(result: string, rest: string, at: int): Event {
    Journal.Event(Journal.Cycle, Journal.SINGLETON, CycleOf(result, rest), at)
  }

  /** The newest heartbeat, if its payload is one. */
  function NewestCycle(rows: seq<Row>): Option<Row> {
    if rows == [] then None
    else if Last(rows).kind == Journal.Cycle then Some(Last(rows))
    else NewestCycle(Init(rows))
  }

  /** The newest heartbeat carries this result. */
  predicate Shows(rows: seq<Row>, result: string) {
    var newest := NewestCycle(rows);
    && newest.Some? && newest.value.raw.Canonical?
    && var payload := newest.value.raw.envelope.payload;
    && payload.CycleOf? && payload.result == result
  }

  predicate BeatDue(rows: seq<Row>, result: string, now: int) {
    !Shows(rows, result) || now - NewestCycle(rows).value.raw.envelope.recordedAt >= HEARTBEAT
  }

  function Beaten(u: Setup, rows: seq<Row>, result: string, rest: string, now: int, at: int): seq<Row> {
    if BeatDue(rows, result, now) then Appended(u, rows, CycleEvent(result, rest, at)) else rows
  }

  lemma {:induction false} NewestCycleIsCycle(rows: seq<Row>)
    ensures NewestCycle(rows).Some? ==> NewestCycle(rows).value in rows && NewestCycle(rows).value.kind == Journal.Cycle
  {
    if rows != [] && Last(rows).kind != Journal.Cycle {
      NewestCycleIsCycle(Init(rows));
    }
  }

  /**
   Two successive heartbeats with the same result are at least five minutes apart, when the second
   is recorded no earlier than it was decided.
   */
  lemma {:induction false} HeartbeatsAreSpaced(
    u: Setup, rows: seq<Row>, result: string, rest: string, now: int, at: int)
    requires Beaten(u, rows, result, rest, now, at) != rows && Shows(rows, result) && now <= at
    ensures var next := Beaten(u, rows, result, rest, now, at);
      && Shows(next, result)
      && NewestCycle(next).value.raw.envelope.recordedAt - NewestCycle(rows).value.raw.envelope.recordedAt >= HEARTBEAT
  {
    BeatenExtends(u, rows, result, rest, now, at);
  }

  lemma {:induction false} BeatenExtends(u: Setup, rows: seq<Row>, result: string, rest: string, now: int, at: int)
    ensures var next := Beaten(u, rows, result, rest, now, at);
      next == rows
        || (next == rows + [Journal.NewRow(u.codec, rows, CycleEvent(result, rest, at))] && Shows(next, result))
  {
    var row := Journal.NewRow(u.codec, rows, CycleEvent(result, rest, at));
    assert Last(rows + [row]) == row;
  }

  // ---- one acquisition ------------------------------------------------------------------------------------

  /** One reading of the monotonic counter and of the wall clock. */
  datatype Reading = Reading(ticks: int, clock: int)

  /** The wall clock on entry, and both clocks when the budget starts, before the attempt and after it. */
  datatype Timing = Timing(entry: int, start: Reading, before: Reading, after: Reading)

  const BUDGET := 50 * SECOND

  predicate NetworkClosed(z: Zone, x: int) {
    Receipts.NETWORK_CLOSES <= z.localTime(x) < Receipts.NETWORK_OPENS
  }

  /** The next eight o'clock in New York, or the recovery deadline if that is earlier. */
  function Cutoff(z: Zone, deadline: int, now: int): int {
    var day := z.localDay(now) + if z.localTime(now) >= Receipts.NETWORK_OPENS then 1 else 0;
    Min(z.at(day, Receipts.NETWORK_CLOSES), deadline)
  }

  /** What is left at a reading, by the counter and by the wall clock. */
  function Budget(z: Zone, deadline: int, t: Timing, at: Reading): int {
    var cutoff := Cutoff(z, deadline, t.entry);
    var ticksEnd := t.start.ticks + Min(BUDGET, cutoff - t.start.clock);
    Max(0, Min(ticksEnd - at.ticks, cutoff - at.clock))
  }

  /**
   While budget is left, the network is open and the recovery deadline is ahead, up to the last
   instant of the budget.
   */
  lemma {:induction false} BudgetKeepsOutOfTrading(z: Zone, deadline: int, t: Timing, x: int)
    requires Valid(z) && !NetworkClosed(z, t.entry) && t.entry <= t.after.clock
    requires t.after.clock <= x < t.after.clock + Budget(z, deadline, t, t.after)
    ensures !NetworkClosed(z, x) && x < deadline
  {
    var day := z.localDay(t.entry);
    assert z.at(day, 0) <= t.entry;
    assert z.at(day, 0) <= x;
    if z.localTime(t.entry) >= Receipts.NETWORK_OPENS {
      assert z.at(day, Receipts.NETWORK_OPENS) <= x;
      assert !(z.at(day + 1, Receipts.NETWORK_CLOSES) <= x);
    } else {
      assert !(z.at(day, Receipts.NETWORK_CLOSES) <= x);
    }
  }

  /** Whether the process dies while it waits, or the source raises or answers. */
  datatype Answer = Died | Raised | Returned(source: Receipts.Source)

  /** The response the worker writes itself after an exception. */
  function WorkerException(finishedAt: int): Receipts.Source {
    Receipts.Source(
      Receipts.OtherOutcome("worker_source_exception"), None, "", false, false, None, None, None, None, None, None,
      Some(finishedAt), Receipts.Unreadable)
  }

  /** The response to record, if the process lives; the source is not asked once the budget is spent. */
  function ToRecord(left: int, finishedAt: int, answer: Answer): Option<Receipts.Source> {
    match answer
    case Died => None
    case Raised => Some(WorkerException(finishedAt))
    case Returned(source) => Some(if left <= 0 then WorkerException(finishedAt) else source)
  }

  /** When the attempt, an exception and the response are recorded, and the heartbeat is decided and recorded. */
  datatype Clocks = Clocks(attempt: int, finished: int, response: int, beatNow: int, beat: int)

  /** `Refused` raised before the attempt was recorded, `Unanswered` before the response, `Unbeaten` after it. */
  datatype Acquisition = Idle | Refused | Unanswered | Unbeaten | Completed

  const NETWORK_COMPLETED := "network_completed"

  /** How an acquisition that is not idle ends, and the journal it leaves. */
  function Acquired(u: Setup, rows: seq<Row>, request: Receipts.Intent, c: Clocks, response: Option<Receipts.Source>)
    : (Acquisition, seq<Row>)
    requires rows != []
  {
    var attempted := Appended(u, rows, AttemptEvent(request, c.attempt));
    if attempted == rows then (Refused, rows)
    else if response == None then (Unanswered, attempted)
    else
      var answered := Appended(u, attempted, ResponseEvent(Last(attempted).sha, response.value, c.response));
      if answered == attempted then (Unanswered, attempted)
      else
        var beaten := Beaten(u, answered, NETWORK_COMPLETED, Last(answered).sha, c.beatNow, c.beat);
        var refused := BeatDue(answered, NETWORK_COMPLETED, c.beatNow) && beaten == answered;
        (if refused then Unbeaten else Completed, beaten)
  }

  function ResponseEvent(sha: string, source: Receipts.Source, at: int): Event {
    Journal.Event(Journal.Response, sha, SourceOf(source), at)
  }

  /** One new attempt for the request, and directly after it the response that answers it. */
  predicate Answered(
    u: Setup, rows: seq<Row>, next: seq<Row>, request: Receipts.Intent, c: Clocks, source: Receipts.Source)
  {
    && |rows| + 2 <= |next| <= |rows| + 3
    && next[..|rows|] == rows
    && var a, b := next[|rows|], next[|rows| + 1];
    && a == Journal.NewRow(u.codec, rows, AttemptEvent(request, c.attempt))
    && b == Journal.NewRow(u.codec, next[..|rows| + 1], ResponseEvent(a.sha, source, c.response))
  }

  // ---- the worker object ---------------------------------------------------------------------------------------

  /** The locked sections of one process, between which other processes may run. */
  class Runtime {
    const setup: Setup
    const journal: Journal.Store<Payload>
    var versions: seq<Version>

    ghost predicate Valid()
      reads this, journal
    {
      && journal.codec == setup.codec && Journal.Accepted(setup.codec, journal.rows) && versions != []
    }

    constructor (u: Setup, store: Journal.Store<Payload>, versions: seq<Version>)
      requires store.codec == u.codec && Journal.Accepted(u.codec, store.rows) && versions != []
      ensures Valid() && setup == u && journal == store && this.versions == versions
    {
      this.setup, this.journal, this.versions := u, store, versions;
    }

    /** Holds both locks: what it loads is what the seal describes. */
    method SealLocked(now: int, at: int) returns (sealed: bool)
      requires Valid()
      modifies journal`rows
      ensures Valid()
      ensures journal.rows == Sealed(setup, old(journal.rows), old(journal.rows), versions, now, at)
      ensures sealed <==> Last(journal.rows).kind == Journal.Seal
    {
      var records := journal.rows;
      if Last(records).kind == Journal.Seal {
        return true;
      }
      if now < setup.deadline {
        return false;
      }
      var report := setup.reporter.sha(records, versions, now);
      if report == None {
        return false;
      }
      sealed := RecordNew(SealEvent(records, versions, now, report.value, at));
    }

    /** Read only: recomputes the sealed report from the records before the seal. */
    method ReadStatus() returns (r: Result<SealMaterial>)
      requires Valid()
      ensures r == Status(setup, journal.rows, versions)
    {
      var rows := journal.rows;
      if |rows| < 2 || Last(rows).kind != Journal.Seal || !TypedRow(Last(rows)) {
        return Rejected("not sealed");
      }
      var material, prior := Last(rows).raw.envelope.payload.material, rows[..|rows| - 1];
      if material.watermarkSequence != Last(prior).sequence || material.watermarkSha != Last(prior).sha {
        return Rejected("seal_watermark_mismatch");
      }
      var sequence := material.calendarSequence;
      if !(1 <= sequence <= |versions|) || versions[sequence - 1].digest != material.calendarSha {
        return Rejected("seal_calendar_head_mismatch");
      }
      var result := setup.reporter.sha(prior, versions[..sequence], material.reportAsOf);
      if result != Some(material.reportSha) {
        return Rejected("seal_report_digest_mismatch");
      }
      return Ok(material);
    }

    /** Writes a cycle record unless the newest one says the same and is less than five minutes old. */
    method Heartbeat(result: string, rest: string, now: int, at: int) returns (ok: bool)
      requires Valid()
      modifies journal`rows
      ensures Valid()
      ensures journal.rows == Beaten(setup, old(journal.rows), result, rest, now, at)
      ensures !ok <==> BeatDue(old(journal.rows), result, now) && journal.rows == old(journal.rows)
      ensures ok ==> Shows(journal.rows, result)
    {
      ghost var before := journal.rows;
      if !BeatDue(journal.rows, result, now) {
        return true;
      }
      ok := RecordNew(CycleEvent(result, rest, at));
      BeatenExtends(setup, before, result, rest, now, at);
    }

    /**
     Holds the network lock: a durable attempt first, then its one response if the process survives,
     then a heartbeat.  Nothing is asked in trading hours or once the time budget is spent.
     */
    method AcquireLocked(
      z: Zone, request: Receipts.Intent, t: Timing, c: Clocks, answer: Answer) returns (r: Acquisition)
      requires Valid()
      requires var attempted := Appended(setup, journal.rows, AttemptEvent(request, c.attempt));
        Journal.CollisionFree(setup.codec, attempted, attempted)
      modifies journal`rows
      ensures Valid()
      ensures
        var response := ToRecord(Budget(z, setup.deadline, t, t.after), c.finished, answer);
        var idle := NetworkClosed(z, t.entry) || Budget(z, setup.deadline, t, t.before) <= 0;
        (r, journal.rows) ==
        if idle then (Idle, old(journal.rows)) else Acquired(setup, old(journal.rows), request, c, response)
      ensures r.Idle? || r.Refused? ==> journal.rows == old(journal.rows)
      ensures r.Unanswered? ==>
        journal.rows ==
          old(journal.rows) + [Journal.NewRow(setup.codec, old(journal.rows), AttemptEvent(request, c.attempt))]
      ensures r.Unbeaten? || r.Completed? ==>
        var response := ToRecord(Budget(z, setup.deadline, t, t.after), c.finished, answer);
        response.Some? && Answered(setup, old(journal.rows), journal.rows, request, c, response.value)
      ensures r.Completed? ==> Shows(journal.rows, NETWORK_COMPLETED)
    {
      if NetworkClosed(z, t.entry) || Budget(z, setup.deadline, t, t.before) <= 0 {
        return Idle;
      }
      var response := ToRecord(Budget(z, setup.deadline, t, t.after), c.finished, answer);
      r := Exchange(request, c, response);
      if r.Unbeaten? {
        ghost var answered := journal.rows;
        var sha := Last(journal.rows).sha;
        var beaten := Heartbeat(NETWORK_COMPLETED, sha, c.beatNow, c.beat);
        BeatenExtends(setup, answered, NETWORK_COMPLETED, sha, c.beatNow, c.beat);
        AnsweredExtends(setup, old(journal.rows), answered, journal.rows, request, c, response.value);
        if beaten {
          r := Completed;
        }
      }
    }

    /** The attempt and, if there is one to record, its response. */
    method Exchange(request: Receipts.Intent, c: Clocks, response: Option<Receipts.Source>) returns (r: Acquisition)
      requires Valid()
      requires var attempted := Appended(setup, journal.rows, AttemptEvent(request, c.attempt));
        Journal.CollisionFree(setup.codec, attempted, attempted)
      modifies journal`rows
      ensures Valid()
      ensures r.Refused? || r.Unanswered? || r.Unbeaten?
      ensures
        var attempted := Appended(setup, old(journal.rows), AttemptEvent(request, c.attempt));
        && (r.Refused? <==> attempted == old(journal.rows))
        && (r.Refused? ==> journal.rows == old(journal.rows))
        && (r.Unanswered? ==>
              && journal.rows == attempted
              && attempted ==
                   old(journal.rows)
                   + [Journal.NewRow(setup.codec, old(journal.rows), AttemptEvent(request, c.attempt))])
        && (r.Unbeaten? ==> response.Some?)
        && (response.Some? && !r.Refused? ==>
              && journal.rows ==
                   Appended(setup, attempted, ResponseEvent(Last(attempted).sha, response.value, c.response))
              && (r.Unbeaten? <==> journal.rows != attempted))
      ensures r.Unbeaten? ==>
        && |journal.rows| == |old(journal.rows)| + 2
        && Answered(setup, old(journal.rows), journal.rows, request, c, response.value)
    {
      var attempt := AttemptEvent(request, c.attempt);
      var recorded := RecordNew(attempt);
      if !recorded {
        return Refused;
      }
      if response == None {
        return Unanswered;
      }
      ghost var attempted := journal.rows;
      FreshAttemptIsUnanswered(setup, old(journal.rows), attempt);
      recorded := RecordNew(ResponseEvent(Last(journal.rows).sha, response.value, c.response));
      if !recorded {
        return Unanswered;
      }
      AnsweredHolds(setup, old(journal.rows), attempted, journal.rows, request, c, response.value);
      return Unbeaten;
    }

    /** Appends an event that is not a repeated response: one record more, or nothing. */
    method RecordNew(ev: Event) returns (recorded: bool)
      requires Valid()
      requires ev.kind == Journal.Response ==> Journal.First(journal.rows, Journal.Response, ev.entity) == None
      modifies journal`rows
      ensures Valid()
      ensures journal.rows == Appended(setup, old(journal.rows), ev)
      ensures journal.rows ==
        old(journal.rows) + if recorded then [Journal.NewRow(setup.codec, old(journal.rows), ev)] else []
    {
      AppendKeepsAccepted(setup, journal.rows, ev);
      var appended := journal.Append(ev);
      return appended.Ok?;
    }
  }

  lemma {:induction false} AnsweredHolds(
    u: Setup, rows: seq<Row>, attempted: seq<Row>, answered: seq<Row>, request: Receipts.Intent, c: Clocks,
    source: Receipts.Source)
    requires attempted == rows + [Journal.NewRow(u.codec, rows, AttemptEvent(request, c.attempt))]
    requires answered ==
      attempted + [Journal.NewRow(u.codec, attempted, ResponseEvent(Last(attempted).sha, source, c.response))]
    ensures Answered(u, rows, answered, request, c, source) && |answered| == |rows| + 2
  {
    assert answered[..|rows| + 1] == attempted && answered[..|rows|] == rows;
  }

  lemma {:induction false} AnsweredExtends(
    u: Setup, rows: seq<Row>, answered: seq<Row>, next: seq<Row>, request: Receipts.Intent, c: Clocks,
    source: Receipts.Source)
    requires Answered(u, rows, answered, request, c, source) && |answered| == |rows| + 2
    requires next == answered || (|next| == |answered| + 1 && answered <= next)
    ensures Answered(u, rows, next, request, c, source)
  {
    assert next[..|rows| + 1] == answered[..|rows| + 1] && next[..|rows|] == answered[..|rows|];
    assert next[|rows|] == answered[|rows|] && next[|rows| + 1] == answered[|rows| + 1];
  }

  /** Nothing recorded before an attempt can answer it. */
  lemma {:induction false} FreshAttemptIsUnanswered(u: Setup, rows: seq<Row>, ev: Event)
    requires Journal.Accepted(u.codec, rows)
    requires Journal.CollisionFree(u.codec, Appended(u, rows, ev), Appended(u, rows, ev))
    requires ev.kind == Journal.Attempt && Journal.Step(u.codec, rows, ev).Ok?
    ensures Appended(u, rows, ev) == rows + [Journal.NewRow(u.codec, rows, ev)]
    ensures Journal.First(Appended(u, rows, ev), Journal.Response, Last(Appended(u, rows, ev)).sha) == None
  {
    var next := Appended(u, rows, ev);
    AppendKeepsAccepted(u, rows, ev);
    Journal.FirstNone(next, Journal.Response, Last(next).sha);
    forall i | 0 <= i < |next| && next[i].kind == Journal.Response ensures next[i].entity != Last(next).sha {
      Journal.ResponsesAnswerOnce(u.codec, next, i);
      var a :| 0 <= a < i && next[a].kind == Journal.Attempt && next[a].sha == next[i].entity;
      if next[a].sha == Last(next).sha {
        Journal.DigestsDistinct(u.codec, next, a, |next| - 1);
      }
    }
  }
}
