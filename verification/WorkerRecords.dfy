/**
 What the locked sections of the worker record, told on rows, columns, clocks and seconds: seals,
 statuses, heartbeats, time budgets and acquisitions.
 */
module WorkerRecords {
  import opened Prelude
  import opened Calendar
  import opened LocalTime
  import opened Evidence
  import opened WorkerRuntime
  import Journal
  import JournalRows
  import Receipts

  /** The row carries the event and is legal at the end of the table. */
  predicate Records(u: Setup, rows: seq<Row>, ev: Event, row: Row) {
    JournalRows.Carries(row, ev) && JournalRows.LegalAt(u.codec, rows + [row], |rows|)
  }

  /** No response to the event's entity is recorded yet, if the event is one. */
  predicate Unanswered(rows: seq<Row>, ev: Event) {
    ev.kind == Journal.Response ==>
      forall i :: 0 <= i < |rows| ==> !JournalRows.SameKey(rows[i], Journal.Response, ev.entity)
  }

  /** Appending leaves the table with the one row that records the event, or as it was if there is none. */
  lemma {:induction false} AppendedExactlyWhen(u: Setup, rows: seq<Row>, ev: Event)
    requires Journal.Accepted(u.codec, rows) && Unanswered(rows, ev)
    ensures forall row :: Appended(u, rows, ev) == rows + [row] <==> Records(u, rows, ev, row)
    ensures Appended(u, rows, ev) == rows <==> forall row :: !Records(u, rows, ev, row)
  {
    JournalRows.AppendsExactlyWhen(u.codec, rows, ev);
    var step := Journal.Step(u.codec, rows, ev);
    if step.Ok? {
      var row :| step == Ok(rows + [row]);
      assert Records(u, rows, ev, row);
      assert |Appended(u, rows, ev)| == |rows| + 1;
    }
    forall row ensures Appended(u, rows, ev) == rows + [row] <==> Records(u, rows, ev, row) {
      assert |rows + [row]| == |rows| + 1;
    }
  }

  // ---- seals ----------------------------------------------------------------------------------------

  /** The seal of what was loaded: it names the newest calendar version and the newest record. */
  function SealFor(rows: seq<Row>, versions: seq<Version>, now: int, sha: string, at: int): Event
    requires rows != [] && versions != []
  {
    Journal.Event(
      Journal.Seal, "singleton",
      SealOf(
        SealMaterial(now, |versions|, versions[|versions| - 1].digest, rows[|rows| - 1].sequence,
                     rows[|rows| - 1].sha, sha)), at)
  }

  /**
   A journal is sealed exactly when it is not, the deadline has passed, the report can be computed,
   and the seal with its digest can be recorded; then that one row is added.
   */
  lemma {:induction false} SealsExactlyWhen(u: Setup, rows: seq<Row>, versions: seq<Version>, now: int, at: int)
    requires Journal.Accepted(u.codec, rows) && versions != []
    ensures forall row :: Sealed(u, rows, rows, versions, now, at) == rows + [row] <==>
      && rows[|rows| - 1].kind != Journal.Seal
      && u.deadline <= now
      && u.reporter.sha(rows, versions, now).Some?
      && Records(u, rows, SealFor(rows, versions, now, u.reporter.sha(rows, versions, now).value, at), row)
    ensures Sealed(u, rows, rows, versions, now, at) == rows
      || exists row :: Sealed(u, rows, rows, versions, now, at) == rows + [row]
  {
    assert forall row :: |rows + [row]| == |rows| + 1;
    match u.reporter.sha(rows, versions, now)
    case None =>
    case Some(sha) =>
      assert SealEvent(rows, versions, now, sha, at) == SealFor(rows, versions, now, sha, at);
      AppendedExactlyWhen(u, rows, SealFor(rows, versions, now, sha, at));
  }

  /** A status succeeds exactly when the last row seals the row before it, a known version and the same report. */
  lemma {:induction false} StatusExactlyWhen(u: Setup, rows: seq<Row>, versions: seq<Version>, m: SealMaterial)
    ensures Status(u, rows, versions) == Ok(m) <==>
      && |rows| >= 2
      && rows[|rows| - 1].kind == Journal.Seal
      && rows[|rows| - 1].raw.Canonical?
      && rows[|rows| - 1].raw.envelope.payload == SealOf(m)
      && rows[|rows| - 2].sequence == m.watermarkSequence
      && rows[|rows| - 2].sha == m.watermarkSha
      && 1 <= m.calendarSequence <= |versions|
      && versions[m.calendarSequence - 1].digest == m.calendarSha
      && u.reporter.sha(rows[..|rows| - 1], versions[..m.calendarSequence], m.reportAsOf) == Some(m.reportSha)
  {
  }

  // ---- heartbeats -------------------------------------------------------------------------------------

  /** The newest cycle row says this result and is less than five minutes old. */
  predicate FreshBeat(rows: seq<Row>, result: string, now: int) {
    exists i :: 0 <= i < |rows| && LastBeat(rows, i) && IsBeat(rows[i], result, now)
  }

  predicate IsBeat(row: Row, result: string, now: int) {
    && row.kind == Journal.Cycle
    && row.raw.Canonical?
    && row.raw.envelope.payload.CycleOf?
    && row.raw.envelope.payload.result == result
    && now < row.raw.envelope.recordedAt + 300_000_000
  }

  /** Position `i` holds the newest cycle row. */
  predicate LastBeat(rows: seq<Row>, i: nat) {
    i < |rows| && rows[i].kind == Journal.Cycle && forall j :: i < j < |rows| ==> rows[j].kind != Journal.Cycle
  }

  lemma {:induction false} NewestCycleIsLast(rows: seq<Row>) returns (i: nat)
    ensures match NewestCycle(rows)
      case None => forall j :: 0 <= j < |rows| ==> rows[j].kind != Journal.Cycle
      case Some(row) => LastBeat(rows, i) && rows[i] == row
  {
    i := 0;
    if rows != [] {
      if Last(rows).kind == Journal.Cycle {
        i := |rows| - 1;
      } else {
        i := NewestCycleIsLast(Init(rows));
      }
    }
  }

  /** A heartbeat is recorded exactly when the newest one differs or is five minutes old, and it can be. */
  lemma {:induction false} BeatsExactlyWhen(u: Setup, rows: seq<Row>, result: string, rest: string, now: int, at: int)
    requires Journal.Accepted(u.codec, rows)
    ensures BeatDue(rows, result, now) <==> !FreshBeat(rows, result, now)
    ensures forall row :: Beaten(u, rows, result, rest, now, at) == rows + [row] <==>
      && !FreshBeat(rows, result, now)
      && Records(u, rows, Journal.Event(Journal.Cycle, "singleton", CycleOf(result, rest), at), row)
    ensures Beaten(u, rows, result, rest, now, at) == rows
      || exists row :: Beaten(u, rows, result, rest, now, at) == rows + [row]
  {
    DueMeansStale(rows, result, now);
    AppendedExactlyWhen(u, rows, CycleEvent(result, rest, at));
    assert forall row :: |rows + [row]| == |rows| + 1;
  }

  lemma {:induction false} DueMeansStale(rows: seq<Row>, result: string, now: int)
    ensures BeatDue(rows, result, now) <==> !FreshBeat(rows, result, now)
  {
    var i := NewestCycleIsLast(rows);
    if NewestCycle(rows).Some? {
      if FreshBeat(rows, result, now) {
        var k :| 0 <= k < |rows| && LastBeat(rows, k) && IsBeat(rows[k], result, now);
        assert k == i;
      }
      if !BeatDue(rows, result, now) {
        assert IsBeat(rows[i], result, now);
      }
    }
  }

  // ---- the time budget -----------------------------------------------------------------------------------

  /** The next eight o'clock in New York after an instant outside trading hours. */
  function NextEight(z: Zone, now: int): int {
    if z.localTime(now) >= 64_800 then z.at(z.localDay(now) + 1, 28_800) else z.at(z.localDay(now), 28_800)
  }

  lemma {:induction false} TradingHours(z: Zone, x: int)
    ensures NetworkClosed(z, x) <==> 28_800 <= z.localTime(x) < 64_800
  {
  }

  /**
   A stretch of time is within the budget exactly when the counter has not run fifty seconds, nor past
   eight o'clock or the deadline as they were seen at the start, and the clock reaches neither by its end.
   */
  lemma {:induction false} BudgetExactly(z: Zone, deadline: int, t: Timing, at: Reading, w: int)
    requires w > 0
    ensures w <= Budget(z, deadline, t, at) <==>
      && at.ticks - t.start.ticks + w <= 50_000_000
      && at.ticks - t.start.ticks + w <= NextEight(z, t.entry) - t.start.clock
      && at.ticks - t.start.ticks + w <= deadline - t.start.clock
      && at.clock + w <= NextEight(z, t.entry)
      && at.clock + w <= deadline
    ensures Budget(z, deadline, t, at) >= 0
  {
  }

  /** The next eight o'clock is ahead, and until then the network stays open. */
  lemma {:induction false} NextEightIsNext(z: Zone, now: int, x: int)
    requires Valid(z) && !NetworkClosed(z, now) && now <= x
    ensures now < NextEight(z, now)
    ensures x < NextEight(z, now) ==> !NetworkClosed(z, x)
    ensures x == NextEight(z, now) ==> NetworkClosed(z, x)
  {
    var day := z.localDay(now);
    assert z.at(day, 0) <= now;
    if z.localTime(now) >= 64_800 {
      assert z.at(day, 64_800) <= now;
      assert z.at(day, 64_800) <= x;
      assert !(z.at(day + 1, 28_800) <= now);
    } else {
      assert !(z.at(day, 28_800) <= now);
    }
  }

  // ---- one acquisition ------------------------------------------------------------------------------------

  /** What is recorded of an answer: the source's own only if it came and budget was left for it. */
  lemma {:induction false} AnswerRecorded(left: int, finishedAt: int, answer: Answer)
    ensures ToRecord(left, finishedAt, answer).None? <==> answer.Died?
    ensures forall source :: answer == Returned(source) && left > 0 ==>
      ToRecord(left, finishedAt, answer) == Some(source)
    ensures answer.Raised? || (answer.Returned? && left <= 0) ==>
      var s := ToRecord(left, finishedAt, answer).value;
      && s.outcome == Receipts.OtherOutcome("worker_source_exception")
      && !s.clockValid && s.dispatchedAt == None && s.responseAt == None && s.finishedAt == Some(finishedAt)
      && s.response == Receipts.Unreadable
  {
  }

  function AskedBy(request: Receipts.Intent, c: Clocks): Event {
    Journal.Event(Journal.Attempt, "network", IntentOf(request), c.attempt)
  }

  function AnsweredBy(a: Row, source: Receipts.Source, c: Clocks): Event {
    Journal.Event(Journal.Response, a.sha, SourceOf(source), c.response)
  }

  /** An acquisition that is not idle is refused exactly when its attempt cannot be recorded. */
  lemma {:induction false} RefusedExactlyWhen(
    u: Setup, rows: seq<Row>, request: Receipts.Intent, c: Clocks, response: Option<Receipts.Source>)
    requires Journal.Accepted(u.codec, rows)
    ensures var (r, next) := Acquired(u, rows, request, c, response);
      && (r.Refused? <==> forall row :: !Records(u, rows, AskedBy(request, c), row))
      && (r.Refused? ==> next == rows)
  {
    AppendedExactlyWhen(u, rows, AskedBy(request, c));
  }

  /** With its attempt recorded it stays unanswered exactly when there is no response or it cannot be recorded. */
  lemma {:induction false} UnansweredExactlyWhen(
    u: Setup, rows: seq<Row>, request: Receipts.Intent, c: Clocks, response: Option<Receipts.Source>, a: Row)
    requires Journal.Accepted(u.codec, rows) && Journal.CollisionFree(u.codec, rows + [a], rows + [a])
    requires Records(u, rows, AskedBy(request, c), a)
    ensures var (r, next) := Acquired(u, rows, request, c, response);
      && (r.Unanswered? <==>
            response == None || forall row :: !Records(u, rows + [a], AnsweredBy(a, response.value, c), row))
      && (r.Unanswered? ==> next == rows + [a])
  {
    AppendedExactlyWhen(u, rows, AskedBy(request, c));
    var attempted := Appended(u, rows, AskedBy(request, c));
    assert attempted == rows + [a] && Last(attempted) == a;
    if response.Some? {
      AttemptIsUnanswered(u, rows, request, c, a, response.value);
      AppendedExactlyWhen(u, attempted, AnsweredBy(a, response.value, c));
    }
  }

  lemma {:induction false} AttemptIsUnanswered(
    u: Setup, rows: seq<Row>, request: Receipts.Intent, c: Clocks, a: Row, source: Receipts.Source)
    requires Journal.Accepted(u.codec, rows) && Journal.CollisionFree(u.codec, rows + [a], rows + [a])
    requires Records(u, rows, AskedBy(request, c), a)
    ensures Journal.Accepted(u.codec, rows + [a]) && Unanswered(rows + [a], AnsweredBy(a, source, c))
  {
    var asked, attempted := AskedBy(request, c), rows + [a];
    AppendedExactlyWhen(u, rows, asked);
    AppendKeepsAccepted(u, rows, asked);
    FreshAttemptIsUnanswered(u, rows, asked);
    assert Last(attempted) == a;
    Journal.FirstNone(attempted, Journal.Response, a.sha);
    forall i | 0 <= i < |attempted| ensures !JournalRows.SameKey(attempted[i], Journal.Response, a.sha) {
      assert (attempted[i].kind, attempted[i].entity) != (Journal.Response, a.sha);
    }
  }

  /** With its response recorded too it is completed unless a due heartbeat cannot be recorded. */
  lemma {:induction false} CompletedExactlyWhen(
    u: Setup, rows: seq<Row>, request: Receipts.Intent, c: Clocks, source: Receipts.Source, a: Row, b: Row)
    requires Journal.Accepted(u.codec, rows) && Journal.CollisionFree(u.codec, rows + [a], rows + [a])
    requires Records(u, rows, AskedBy(request, c), a)
    requires Records(u, rows + [a], AnsweredBy(a, source, c), b)
    ensures var (r, next) := Acquired(u, rows, request, c, Some(source));
      && next == Beaten(u, rows + [a, b], "network_completed", b.sha, c.beatNow, c.beat)
      && (r.Completed? <==> FreshBeat(rows + [a, b], "network_completed", c.beatNow) || next != rows + [a, b])
  {
    AppendedExactlyWhen(u, rows, AskedBy(request, c));
    var attempted := Appended(u, rows, AskedBy(request, c));
    assert attempted == rows + [a] && Last(attempted) == a;
    AttemptIsUnanswered(u, rows, request, c, a, source);
    AppendedExactlyWhen(u, attempted, AnsweredBy(a, source, c));
    assert attempted + [b] == rows + [a, b];
    DueMeansStale(rows + [a, b], "network_completed", c.beatNow);
  }
}
