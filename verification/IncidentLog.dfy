/**
 The incident table read from its event log: which notice is owed, and exactly when a failure, a
 success or a dispatch acts on it.
 */
module IncidentLog {
  import opened Prelude
  import opened Incidents

  // ---- the table and its log -------------------------------------------------------------------------

  datatype Column = Begun | OutageTried | OutageSent | Ended | RecoveryTried | RecoverySent | GivenUp

  /** The instant an event gives to a column of incident `i`. */
  function Gives(e: Event, i: nat, column: Column): Option<int> {
    if e.id != i then None
    else
      match e
      case Started(_, at) => if column == Begun then Some(at) else None
      case Reserved(_, phase, at) =>
        if column == (if phase == Outage then OutageTried else RecoveryTried) then Some(at) else None
      case Recovered(_, at) => if column == Ended then Some(at) else None
      case Abandoned(_, at) => if column == GivenUp then Some(at) else None
      case Delivered(_, phase, at) =>
        if column == (if phase == Outage then OutageSent else RecoverySent) then Some(at) else None
      case DeliveryFailed(_, _) => None
  }

  /** The newest instant the log gives. */
  function Latest(log: seq<Event>, i: nat, column: Column): Option<int> {
    if log == [] then None
    else if Gives(Last(log), i, column).Some? then Gives(Last(log), i, column)
    else Latest(Init(log), i, column)
  }

  function InTable(xs: seq<Incident>, i: nat, column: Column): Option<int> {
    if i >= |xs| then None
    else
      match column
      case Begun => Some(xs[i].startedAt)
      case OutageTried => xs[i].outageAttempt
      case OutageSent => xs[i].outageNotified
      case Ended => xs[i].recoveredAt
      case RecoveryTried => xs[i].recoveryAttempt
      case RecoverySent => xs[i].recoveryNotified
      case GivenUp => xs[i].abandonedAt
  }

  ghost predicate Matches(l: Ledger) {
    forall i, column :: InTable(l.incidents, i, column) == Latest(l.log, i, column)
  }

  /** The table follows one more event. */
  lemma {:induction false} EventMatches(l: Ledger, xs: seq<Incident>, e: Event)
    requires Matches(l)
    requires forall i, column ::
      InTable(xs, i, column)
      == if Gives(e, i, column).Some? then Gives(e, i, column) else InTable(l.incidents, i, column)
    ensures Matches(Ledger(xs, l.log + [e]))
  {
    assert Init(l.log + [e]) == l.log && Last(l.log + [e]) == e;
  }

  lemma {:induction false} AbandonFirstMatches(l: Ledger, n: nat, now: int)
    requires Matches(l) && n <= |l.incidents|
    ensures Matches(AbandonFirst(l, n, now))
  {
    if n > 0 {
      AbandonFirstMatches(l, n - 1, now);
      var r := AbandonFirst(l, n - 1, now);
      if AwaitsRecovery(r.incidents[n - 1]) {
        EventMatches(r, Abandon(r, n - 1, now).incidents, Abandoned(n - 1, now));
      }
    }
  }

  lemma {:induction false} ReserveMatches(l: Ledger, i: nat, phase: Phase, now: int)
    requires Matches(l) && i < |l.incidents|
    requires phase == Outage ==> l.incidents[i].outageNotified == None
    requires phase != Outage ==> l.incidents[i].recoveryNotified == None && l.incidents[i].abandonedAt == None
    ensures Matches(Reserve(l, i, phase, now))
  {
    EventMatches(l, Reserve(l, i, phase, now).incidents, Reserved(i, phase, now));
  }

  lemma {:induction false} FailMatches(c: Config, l: Ledger, kind: string, now: int)
    requires Matches(l)
    ensures Matches(Fail(c, l, kind, now).0)
  {
    var settled := AbandonFirst(l, |l.incidents|, now);
    AbandonFirstMatches(l, |l.incidents|, now);
    var (failing, i) := Failing(settled, kind, now);
    if FindOpen(settled.incidents) == None {
      EventMatches(settled, failing.incidents, Started(i, now));
    } else {
      RepeatMatches(settled, i, kind, now);
    }
    if OutageDue(c, failing.incidents[i], now) {
      ReserveMatches(failing, i, Outage, now);
    }
  }

  lemma {:induction false} RepeatMatches(l: Ledger, i: nat, kind: string, now: int)
    requires Matches(l) && i < |l.incidents|
    ensures Matches(Repeat(l, i, kind, now))
  {
    var xs := Repeat(l, i, kind, now).incidents;
    forall j: nat, column ensures InTable(xs, j, column) == Latest(l.log, j, column) {
      assert InTable(xs, j, column) == InTable(l.incidents, j, column);
    }
  }

  lemma {:induction false} SucceedMatches(c: Config, l: Ledger, now: int)
    requires Sound(c, l) && Matches(l)
    ensures Matches(Succeed(c, l, now).0)
  {
    match FindOpen(l.incidents)
    case Some(i) =>
      assert RowSound(l.incidents[i]);
      EventMatches(l, Recover(l, i, now).incidents, Recovered(i, now));
      if l.incidents[i].outageAttempt.Some? {
        ReserveMatches(Recover(l, i, now), i, RecoveryPhase(l.incidents[i]), now);
      }
    case None =>
      match NewestAwaiting(l.incidents)
      case None =>
      case Some(i) => ReserveMatches(l, i, RecoveryPhase(l.incidents[i]), now);
  }

  lemma {:induction false} DispatchedMatches(l: Ledger, a: Action, d: Delivery)
    requires Matches(l)
    ensures Matches(Dispatched(l, a, d))
  {
    if Dispatchable(l, a) {
      match d
      case Answered(at) => EventMatches(l, Dispatched(l, a, d).incidents, Delivered(a.id, a.phase, at));
      case Failed => EventMatches(l, l.incidents, DeliveryFailed(a.id, a.phase));
      case Died =>
    }
  }

  /** After any run every column of the table is the newest instant its event log gives for it. */
  lemma {:induction false} TableIsItsLog(c: Config, steps: seq<Step>)
    requires c.retry >= 1
    ensures Matches(Ran(c, steps))
  {
    if steps == [] {
    } else {
      var l := Ran(c, Init(steps));
      TableIsItsLog(c, Init(steps));
      RunIsSound(c, Init(steps));
      match Last(steps)
      case Failure(kind, now) => FailMatches(c, l, kind, now);
      case Success(now) => SucceedMatches(c, l, now);
      case Dispatch(action, delivery) => DispatchedMatches(l, action, delivery);
    }
  }

  // ---- exactly when a notice is owed --------------------------------------------------------------------

  /** Begun, not ended, no outage notice sent, old enough, and the last try for one a retry interval ago. */
  predicate OutageOwed(c: Config, log: seq<Event>, i: nat, now: int) {
    && Latest(log, i, Begun).Some? && now - Latest(log, i, Begun).value >= c.threshold
    && Latest(log, i, Ended) == None
    && Latest(log, i, OutageSent) == None
    && (Latest(log, i, OutageTried).Some? ==> now - Latest(log, i, OutageTried).value >= c.retry)
  }

  /** An outage notice was tried, and the end is new, or known, not announced, not given up and due again. */
  predicate RecoveryOwed(c: Config, log: seq<Event>, i: nat, now: int) {
    && Latest(log, i, OutageTried).Some?
    && (Latest(log, i, Ended).Some? ==>
          && Latest(log, i, RecoverySent) == None
          && Latest(log, i, GivenUp) == None
          && (Latest(log, i, RecoveryTried).Some? ==> now - Latest(log, i, RecoveryTried).value >= c.retry))
  }

  lemma {:induction false} AbandonFirstKeepsRest(l: Ledger, n: nat, now: int)
    requires n <= |l.incidents|
    ensures forall i :: 0 <= i < |l.incidents| ==>
      AbandonFirst(l, n, now).incidents[i].(abandonedAt := None) == l.incidents[i].(abandonedAt := None)
    ensures l.log <= AbandonFirst(l, n, now).log
    ensures forall k :: |l.log| <= k < |AbandonFirst(l, n, now).log| ==> AbandonFirst(l, n, now).log[k].Abandoned?
  {
    if n > 0 {
      AbandonFirstKeepsRest(l, n - 1, now);
    }
  }

  /** The incident a failure belongs to: the newest one if it is open, or else a new one. */
  lemma {:induction false} FailingIsNewest(c: Config, l: Ledger, kind: string, now: int)
    requires Sound(c, l)
    ensures var (failing, i) := Failing(AbandonFirst(l, |l.incidents|, now), kind, now);
      if l.incidents != [] && IsOpen(Last(l.incidents))
      then
        i == |l.incidents| - 1 && |failing.incidents| == |l.incidents|
        && failing.incidents[i].(abandonedAt := None) ==
           l.incidents[i].(
             lastFailureAt := now, failures := l.incidents[i].failures + 1, kind := kind, abandonedAt := None)
      else
        i == |l.incidents| && |failing.incidents| == |l.incidents| + 1
        && failing.incidents[i] == Incident(now, now, 1, kind, None, None, None, None, None, None)
  {
    var settled := AbandonFirst(l, |l.incidents|, now);
    AbandonFirstKeepsRest(l, |l.incidents|, now);
    forall i | 0 <= i < |l.incidents| ensures IsOpen(settled.incidents[i]) <==> IsOpen(l.incidents[i]) {
      assert settled.incidents[i].(abandonedAt := None) == l.incidents[i].(abandonedAt := None);
    }
  }

  lemma {:induction false} OwedMeansNewest(c: Config, l: Ledger, i: nat, now: int)
    requires Sound(c, l) && Matches(l)
    ensures OutageOwed(c, l.log, i, now) ==> i == |l.incidents| - 1 && IsOpen(l.incidents[i])
    ensures RecoveryOwed(c, l.log, i, now) ==>
      i == |l.incidents| - 1 && (IsOpen(l.incidents[i]) || AwaitsRecovery(l.incidents[i]))
  {
    assert forall column :: InTable(l.incidents, i, column) == Latest(l.log, i, column);
    assert InTable(l.incidents, i, Begun) == Latest(l.log, i, Begun);
    assert InTable(l.incidents, i, Ended) == Latest(l.log, i, Ended);
    assert InTable(l.incidents, i, OutageTried) == Latest(l.log, i, OutageTried);
    assert InTable(l.incidents, i, RecoverySent) == Latest(l.log, i, RecoverySent);
    assert InTable(l.incidents, i, GivenUp) == Latest(l.log, i, GivenUp);
  }

  /** Whether the incident of a failure is due is what the log says is owed. */
  lemma {:induction false} DueMeansOwed(c: Config, l: Ledger, kind: string, now: int)
    requires c.threshold >= 1 && Sound(c, l) && Matches(l)
    ensures var (failing, i) := Failing(AbandonFirst(l, |l.incidents|, now), kind, now);
      && (OutageDue(c, failing.incidents[i], now) <==> OutageOwed(c, l.log, i, now))
      && (OutageDue(c, failing.incidents[i], now) ==> Latest(l.log, i, Begun) == Some(failing.incidents[i].startedAt))
      && forall j: nat :: OutageOwed(c, l.log, j, now) ==> j == i
  {
    FailingIsNewest(c, l, kind, now);
    if l.incidents != [] {
      ColumnsOf(l, |l.incidents| - 1);
    }
    forall j: nat | OutageOwed(c, l.log, j, now)
      ensures j == |l.incidents| - 1 && IsOpen(Last(l.incidents))
    {
      OwedMeansNewest(c, l, j, now);
    }
  }

  /**
   A failure reserves an outage notice exactly when one is owed, so a notice that could not be sent is
   tried again for as long as the outage lasts.
   */
  lemma {:induction false} FailureReservesExactlyWhen(c: Config, steps: seq<Step>, kind: string, now: int)
    requires c.threshold >= 1 && c.retry >= 1
    ensures var l := Ran(c, steps);
      var next, action := Fail(c, l, kind, now).0, Fail(c, l, kind, now).1;
      && (action.Some? <==> exists i: nat :: OutageOwed(c, l.log, i, now))
      && (action.Some? ==>
            var i := action.value.id;
            && OutageOwed(c, l.log, i, now)
            && action.value == Action(i, Outage, kind, Latest(l.log, i, Begun).value, None, now)
            && Latest(next.log, i, OutageTried) == Some(now))
      && (action == None ==> ReservesNothing(l.log, next.log))
  {
    var l := Ran(c, steps);
    TableIsItsLog(c, steps);
    RunIsSound(c, steps);
    DueMeansOwed(c, l, kind, now);
    FailLogs(c, l, kind, now);
  }

  lemma {:induction false} FailLogs(c: Config, l: Ledger, kind: string, now: int)
    ensures var next, action := Fail(c, l, kind, now).0, Fail(c, l, kind, now).1;
      && (action == None ==> ReservesNothing(l.log, next.log))
      && (action.Some? ==> Latest(next.log, action.value.id, OutageTried) == Some(now))
  {
    AbandonFirstKeepsRest(l, |l.incidents|, now);
  }

  /** The log goes on without a new reservation. */
  predicate ReservesNothing(log: seq<Event>, next: seq<Event>) {
    log <= next && forall k :: |log| <= k < |next| ==> !next[k].Reserved?
  }

  lemma {:induction false} ColumnsOf(l: Ledger, i: nat)
    requires Matches(l) && i < |l.incidents|
    ensures var x, log := l.incidents[i], l.log;
      && Latest(log, i, Begun) == Some(x.startedAt)
      && Latest(log, i, OutageTried) == x.outageAttempt
      && Latest(log, i, OutageSent) == x.outageNotified
      && Latest(log, i, Ended) == x.recoveredAt
      && Latest(log, i, RecoveryTried) == x.recoveryAttempt
      && Latest(log, i, RecoverySent) == x.recoveryNotified
      && Latest(log, i, GivenUp) == x.abandonedAt
  {
    assert InTable(l.incidents, i, Begun) == Latest(l.log, i, Begun);
    assert InTable(l.incidents, i, OutageTried) == Latest(l.log, i, OutageTried);
    assert InTable(l.incidents, i, OutageSent) == Latest(l.log, i, OutageSent);
    assert InTable(l.incidents, i, Ended) == Latest(l.log, i, Ended);
    assert InTable(l.incidents, i, RecoveryTried) == Latest(l.log, i, RecoveryTried);
    assert InTable(l.incidents, i, RecoverySent) == Latest(l.log, i, RecoverySent);
    assert InTable(l.incidents, i, GivenUp) == Latest(l.log, i, GivenUp);
  }

  /** What a recovery notice says: whether the outage is known to have been announced, and its dates. */
  predicate Announces(l: Ledger, a: Action, now: int) {
    && a.id < |l.incidents|
    && a.phase == (if Latest(l.log, a.id, OutageSent).Some? then Recovery else RecoveryIndeterminate)
    && Some(a.startedAt) == Latest(l.log, a.id, Begun)
    && a.recoveredAt == (if Latest(l.log, a.id, Ended).Some? then Latest(l.log, a.id, Ended) else Some(now))
    && a.kind == l.incidents[a.id].kind
    && a.reservedAt == now
  }

  lemma {:induction false} SucceedOwes(c: Config, l: Ledger, now: int)
    requires Sound(c, l) && Matches(l)
    ensures var action := Succeed(c, l, now).1;
      && (action.Some? ==> RecoveryOwed(c, l.log, action.value.id, now) && Announces(l, action.value, now))
      && forall i: nat :: RecoveryOwed(c, l.log, i, now) ==> action.Some?
  {
    var action := Succeed(c, l, now).1;
    if action.Some? {
      ColumnsOf(l, action.value.id);
      assert RowSound(l.incidents[action.value.id]);
    }
    forall i: nat | RecoveryOwed(c, l.log, i, now) ensures action.Some? {
      OwedMeansNewest(c, l, i, now);
      ColumnsOf(l, i);
    }
  }

  lemma {:induction false} SucceedLogs(c: Config, l: Ledger, now: int)
    ensures var next, action := Succeed(c, l, now).0, Succeed(c, l, now).1;
      && (action == None ==> ReservesNothing(l.log, next.log))
      && (action.Some? ==> Latest(next.log, action.value.id, RecoveryTried) == Some(now))
  {
  }

  /** The open incident ends now; an end once known stays. */
  lemma {:induction false} SucceedEnds(c: Config, l: Ledger, now: int, i: nat)
    requires Sound(c, l) && Matches(l) && i < |l.incidents|
    ensures Latest(Succeed(c, l, now).0.log, i, Ended) ==
      if Latest(l.log, i, Ended).Some? then Latest(l.log, i, Ended) else Some(now)
  {
    SucceedMatches(c, l, now);
    ColumnsOf(l, i);
    ColumnsOf(Succeed(c, l, now).0, i);
  }

  /** A success ends the open incident, and reserves a recovery notice exactly when one is owed. */
  lemma {:induction false} SuccessReservesExactlyWhen(c: Config, steps: seq<Step>, now: int)
    requires c.retry >= 1
    ensures var l, next, action := Ran(c, steps), Succeed(c, Ran(c, steps), now).0, Succeed(c, Ran(c, steps), now).1;
      && (action.Some? <==> exists i: nat :: RecoveryOwed(c, l.log, i, now))
      && (action.Some? ==>
            && RecoveryOwed(c, l.log, action.value.id, now)
            && Announces(l, action.value, now)
            && Latest(next.log, action.value.id, RecoveryTried) == Some(now))
      && (action == None ==> ReservesNothing(l.log, next.log))
      && forall i: nat :: i < |l.incidents| ==>
           Latest(next.log, i, Ended) == if Latest(l.log, i, Ended).Some? then Latest(l.log, i, Ended) else Some(now)
  {
    var l := Ran(c, steps);
    TableIsItsLog(c, steps);
    RunIsSound(c, steps);
    SucceedOwes(c, l, now);
    SucceedLogs(c, l, now);
    forall i: nat | i < |l.incidents|
      ensures Latest(Succeed(c, l, now).0.log, i, Ended) ==
        if Latest(l.log, i, Ended).Some? then Latest(l.log, i, Ended) else Some(now)
    {
      SucceedEnds(c, l, now, i);
    }
  }

  /**
   A notice is sent exactly for the newest reservation of its kind while none of that kind was sent: an
   outage notice only before the end, a recovery notice only after it and unless it was given up.  What
   was sent is recorded at once.
   */
  lemma {:induction false} NoticeIsSentExactlyWhen(c: Config, steps: seq<Step>, a: Action, at: int)
    requires c.retry >= 1
    ensures var l := Ran(c, steps);
      && (Dispatchable(l, a) <==>
            if a.phase == Outage then
              && Latest(l.log, a.id, OutageTried) == Some(a.reservedAt)
              && Latest(l.log, a.id, OutageSent) == None
              && Latest(l.log, a.id, Ended) == None
            else
              && Latest(l.log, a.id, RecoveryTried) == Some(a.reservedAt)
              && Latest(l.log, a.id, RecoverySent) == None
              && Latest(l.log, a.id, Ended).Some?
              && Latest(l.log, a.id, GivenUp) == None)
      && (Dispatchable(l, a) ==> Dispatched(l, a, Answered(at)).log == l.log + [Delivered(a.id, a.phase, at)])
  {
    var l := Ran(c, steps);
    TableIsItsLog(c, steps);
    if a.id < |l.incidents| {
      ColumnsOf(l, a.id);
    } else {
      assert InTable(l.incidents, a.id, OutageTried) == Latest(l.log, a.id, OutageTried);
      assert InTable(l.incidents, a.id, RecoveryTried) == Latest(l.log, a.id, RecoveryTried);
    }
  }

  // ---- what failures leave in the table -------------------------------------------------------------------

  function FailureSteps(steps: seq<Step>): nat {
    if steps == [] then 0 else FailureSteps(Init(steps)) + if Last(steps).Failure? then 1 else 0
  }

  function TotalFailures(xs: seq<Incident>): nat {
    if xs == [] then 0 else TotalFailures(Init(xs)) + Last(xs).failures
  }

  lemma {:induction false} SameFailuresSameTotal(xs: seq<Incident>, ys: seq<Incident>)
    requires |xs| == |ys| && forall i :: 0 <= i < |xs| ==> xs[i].failures == ys[i].failures
    ensures TotalFailures(xs) == TotalFailures(ys)
  {
    if xs != [] {
      SameFailuresSameTotal(Init(xs), Init(ys));
    }
  }

  /** A failure is added to the newest incident if that is open, and otherwise starts one. */
  lemma {:induction false} FailCounts(c: Config, l: Ledger, kind: string, now: int)
    requires Sound(c, l)
    ensures var xs, ys := l.incidents, Fail(c, l, kind, now).0.incidents;
      && ys != [] && |xs| <= |ys|
      && (forall i :: 0 <= i < |ys| - 1 ==> ys[i].failures == xs[i].failures)
      && Last(ys).failures == (if |ys| == |xs| then Last(xs).failures else 0) + 1
      && |ys| <= |xs| + 1
  {
    FailingIsNewest(c, l, kind, now);
    AbandonFirstKeepsRest(l, |l.incidents|, now);
    var settled := AbandonFirst(l, |l.incidents|, now);
    forall i | 0 <= i < |l.incidents| ensures settled.incidents[i].failures == l.incidents[i].failures {
      assert settled.incidents[i].(abandonedAt := None) == l.incidents[i].(abandonedAt := None);
    }
  }

  lemma {:induction false} FailTotals(c: Config, l: Ledger, kind: string, now: int)
    requires Sound(c, l)
    ensures TotalFailures(Fail(c, l, kind, now).0.incidents) == TotalFailures(l.incidents) + 1
  {
    var xs, ys := l.incidents, Fail(c, l, kind, now).0.incidents;
    FailCounts(c, l, kind, now);
    SameFailuresSameTotal(Init(ys), if |ys| == |xs| then Init(xs) else xs);
  }

  /** Every failure ever recorded is counted in exactly one incident. */
  lemma {:induction false} FailuresAreCounted(c: Config, steps: seq<Step>)
    requires c.retry >= 1
    ensures TotalFailures(Ran(c, steps).incidents) == FailureSteps(steps)
  {
    if steps == [] {
    } else {
      var l := Ran(c, Init(steps));
      FailuresAreCounted(c, Init(steps));
      RunIsSound(c, Init(steps));
      match Last(steps)
      case Failure(kind, now) => FailTotals(c, l, kind, now);
      case Success(now) => SameFailuresSameTotal(l.incidents, Succeed(c, l, now).0.incidents);
      case Dispatch(a, d) => SameFailuresSameTotal(l.incidents, Dispatched(l, a, d).incidents);
    }
  }

  lemma {:induction false} NewestShowsFailure(c: Config, l: Ledger, kind: string, now: int)
    requires Sound(c, l)
    ensures var xs, ys := l.incidents, Fail(c, l, kind, now).0.incidents;
      && ys != [] && var y := Last(ys);
      && y.recoveredAt == None && y.lastFailureAt == now && y.kind == kind
      && (if xs != [] && Last(xs).recoveredAt == None
          then |ys| == |xs| && y.failures == Last(xs).failures + 1 && y.startedAt == Last(xs).startedAt
          else |ys| == |xs| + 1 && y.failures == 1 && y.startedAt == now)
  {
    FailingIsNewest(c, l, kind, now);
  }

  /**
   After a failure the newest incident is open and shows it: the incident that was open before, or one
   that starts now.  No incident awaits a recovery notice any longer.
   */
  lemma {:induction false} FailureShowsInNewest(c: Config, steps: seq<Step>, kind: string, now: int)
    requires c.retry >= 1
    ensures var xs, ys := Ran(c, steps).incidents, Fail(c, Ran(c, steps), kind, now).0.incidents;
      && (forall i :: 0 <= i < |ys| ==> !AwaitsRecovery(ys[i]))
      && ys != [] && var y := Last(ys);
      && y.recoveredAt == None && y.lastFailureAt == now && y.kind == kind
      && (if xs != [] && Last(xs).recoveredAt == None
          then |ys| == |xs| && y.failures == Last(xs).failures + 1 && y.startedAt == Last(xs).startedAt
          else |ys| == |xs| + 1 && y.failures == 1 && y.startedAt == now)
  {
    RunIsSound(c, steps);
    FailKeeps(c, Ran(c, steps), kind, now);
    NewestShowsFailure(c, Ran(c, steps), kind, now);
  }
}
