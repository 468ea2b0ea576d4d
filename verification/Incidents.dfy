/**
 Operational outage incidents and their notices.

 Every operation runs alone: one mutex and one transaction cover it.  An incident's id is its
 position in the table, which the source mixes into the id's digest.  Instants are integers and
 nothing is assumed about the order of the clocks that supply them.
 */
module Incidents {
  import opened Prelude

  datatype Phase = Outage | Recovery | RecoveryIndeterminate

  datatype Incident = Incident(
    startedAt: int, lastFailureAt: int, failures: nat, kind: string,
    outageAttempt: Option<int>, outageNotified: Option<int>,
    recoveredAt: Option<int>,
    recoveryAttempt: Option<int>, recoveryNotified: Option<int>, abandonedAt: Option<int>)

  datatype Event =
    | Started(id: nat, at: int)
    | Reserved(id: nat, phase: Phase, at: int)
    | Recovered(id: nat, at: int)
    | Abandoned(id: nat, at: int)
    | Delivered(id: nat, phase: Phase, at: int)
    | DeliveryFailed(id: nat, phase: Phase)

  datatype Config = Config(threshold: int, retry: int)

  /** A reservation handed to the caller for delivery. */
  datatype Action = Action(
    id: nat, phase: Phase, kind: string, startedAt: int, recoveredAt: Option<int>, reservedAt: int)

  /** `Died` is a process that ended during delivery: the notice may or may not have gone out. */
  datatype Delivery = Answered(at: int) | Failed | Died

  datatype Ledger = Ledger(incidents: seq<Incident>, log: seq<Event>)

  // ---- columns -------------------------------------------------------------------------------

  predicate IsOpen(i: Incident) {
    i.recoveredAt == None
  }

  predicate AwaitsRecovery(i: Incident) {
    i.recoveredAt.Some? && i.outageAttempt.Some? && i.recoveryNotified == None && i.abandonedAt == None
  }

  /** Both recovery phases share one pair of columns. */
  function LastAttempt(i: Incident, outage: bool): Option<int> {
    if outage then i.outageAttempt else i.recoveryAttempt
  }

  function NotifiedAt(i: Incident, outage: bool): Option<int> {
    if outage then i.outageNotified else i.recoveryNotified
  }

  predicate LifecycleAllows(i: Incident, outage: bool) {
    if outage then i.recoveredAt == None else i.recoveredAt.Some? && i.abandonedAt == None
  }

  function RecoveryPhase(i: Incident): Phase {
    if i.outageNotified.Some? then Recovery else RecoveryIndeterminate
  }

  // ---- queries --------------------------------------------------------------------------------

  function FindOpen(xs: seq<Incident>): (r: Option<nat>)
    ensures r.Some? ==> r.value < |xs| && IsOpen(xs[r.value])
    ensures r == None ==> forall i :: 0 <= i < |xs| ==> !IsOpen(xs[i])
  {
    if xs == [] then None else if IsOpen(Last(xs)) then Some(|xs| - 1) else FindOpen(Init(xs))
  }

  /** The incident awaiting a recovery notice that recovered last. */
  function NewestAwaiting(xs: seq<Incident>): (r: Option<nat>)
    ensures r.Some? ==> r.value < |xs| && AwaitsRecovery(xs[r.value])
    ensures r.Some? ==>
      forall i :: 0 <= i < |xs| && AwaitsRecovery(xs[i]) ==>
        xs[i].recoveredAt.value <= xs[r.value].recoveredAt.value
    ensures r == None ==> forall i :: 0 <= i < |xs| ==> !AwaitsRecovery(xs[i])
  {
    if xs == [] then None
    else
      var earlier := NewestAwaiting(Init(xs));
      if AwaitsRecovery(Last(xs))
        && (earlier == None || xs[earlier.value].recoveredAt.value <= Last(xs).recoveredAt.value)
      then Some(|xs| - 1) else earlier
  }

  // ---- table updates ------------------------------------------------------------------------------

  function Abandon(l: Ledger, i: nat, now: int): Ledger
    requires i < |l.incidents|
  {
    Ledger(l.incidents[i := l.incidents[i].(abandonedAt := Some(now))], l.log + [Abandoned(i, now)])
  }

  function Start(l: Ledger, kind: string, now: int): Ledger {
    Ledger(
      l.incidents + [Incident(now, now, 1, kind, None, None, None, None, None, None)],
      l.log + [Started(|l.incidents|, now)])
  }

  function Repeat(l: Ledger, i: nat, kind: string, now: int): Ledger
    requires i < |l.incidents|
  {
    var x := l.incidents[i];
    l.(incidents := l.incidents[i := x.(lastFailureAt := now, failures := x.failures + 1, kind := kind)])
  }

  function Recover(l: Ledger, i: nat, now: int): Ledger
    requires i < |l.incidents|
  {
    Ledger(l.incidents[i := l.incidents[i].(recoveredAt := Some(now))], l.log + [Recovered(i, now)])
  }

  function Reserve(l: Ledger, i: nat, phase: Phase, now: int): Ledger
    requires i < |l.incidents|
  {
    var x := l.incidents[i];
    var y :=
      if phase == Outage then (if x.outageNotified == None then x.(outageAttempt := Some(now)) else x)
      else if x.recoveryNotified == None && x.abandonedAt == None then x.(recoveryAttempt := Some(now)) else x;
    Ledger(l.incidents[i := y], l.log + [Reserved(i, phase, now)])
  }

  /** Records a delivery only while its column is empty and the lifecycle still allows it. */
  function Deliver(l: Ledger, i: nat, phase: Phase, at: int): Ledger
    requires i < |l.incidents|
  {
    var x := l.incidents[i];
    if NotifiedAt(x, phase == Outage).Some? || !LifecycleAllows(x, phase == Outage) then l
    else
      var y := if phase == Outage then x.(outageNotified := Some(at)) else x.(recoveryNotified := Some(at));
      Ledger(l.incidents[i := y], l.log + [Delivered(i, phase, at)])
  }

  // ---- the three operations ---------------------------------------------------------------------------

  function AbandonFirst(l: Ledger, n: nat, now: int): (r: Ledger)
    requires n <= |l.incidents|
    ensures |r.incidents| == |l.incidents|
    ensures forall i :: n <= i < |l.incidents| ==> r.incidents[i] == l.incidents[i]
  {
    if n == 0 then l
    else
      var r := AbandonFirst(l, n - 1, now);
      if AwaitsRecovery(r.incidents[n - 1]) then Abandon(r, n - 1, now) else r
  }

  predicate OutageDue(c: Config, x: Incident, now: int) {
    && x.outageNotified == None
    && now - x.startedAt >= c.threshold
    && (x.outageAttempt == None || now - x.outageAttempt.value >= c.retry)
  }

  /** The table once the failure itself is recorded, and the incident it belongs to. */
  function Failing(l: Ledger, kind: string, now: int): (r: (Ledger, nat))
    ensures r.1 < |r.0.incidents|
  {
    match FindOpen(l.incidents)
    case None => (Start(l, kind, now), |l.incidents|)
    case Some(i) => (Repeat(l, i, kind, now), i)
  }

  function Fail(c: Config, l: Ledger, kind: string, now: int): (Ledger, Option<Action>) {
    var (failing, i) := Failing(AbandonFirst(l, |l.incidents|, now), kind, now);
    var x := failing.incidents[i];
    if OutageDue(c, x, now)
    then (Reserve(failing, i, Outage, now), Some(Action(i, Outage, kind, x.startedAt, None, now)))
    else (failing, None)
  }

  function Succeed(c: Config, l: Ledger, now: int): (Ledger, Option<Action>) {
    match FindOpen(l.incidents)
    case Some(i) =>
      var x := l.incidents[i];
      if x.outageAttempt == None then (Recover(l, i, now), None)
      else
        (Reserve(Recover(l, i, now), i, RecoveryPhase(x), now),
         Some(Action(i, RecoveryPhase(x), x.kind, x.startedAt, Some(now), now)))
    case None =>
      match NewestAwaiting(l.incidents)
      case None => (l, None)
      case Some(i) =>
        var x := l.incidents[i];
        if x.recoveryAttempt.Some? && now - x.recoveryAttempt.value < c.retry then (l, None)
        else
          (Reserve(l, i, RecoveryPhase(x), now),
           Some(Action(i, RecoveryPhase(x), x.kind, x.startedAt, x.recoveredAt, now)))
  }

  /** Whether this exact reservation is still the current one. */
  predicate Dispatchable(l: Ledger, a: Action) {
    && a.id < |l.incidents|
    && var x := l.incidents[a.id];
    && NotifiedAt(x, a.phase == Outage) == None
    && LastAttempt(x, a.phase == Outage) == Some(a.reservedAt)
    && LifecycleAllows(x, a.phase == Outage)
  }

  function Dispatched(l: Ledger, a: Action, d: Delivery): Ledger {
    if !Dispatchable(l, a) then l
    else
      match d
      case Answered(at) => Deliver(l, a.id, a.phase, at)
      case Failed => l.(log := l.log + [DeliveryFailed(a.id, a.phase)])
      case Died => l
  }

  // ---- what every ledger keeps ------------------------------------------------------------------------

  predicate RowSound(x: Incident) {
    && (x.recoveryAttempt.Some? || x.recoveryNotified.Some? || x.abandonedAt.Some? ==> x.recoveredAt.Some?)
    && (x.recoveryAttempt.Some? ==> x.outageAttempt.Some?)
  }

  /** All incidents but the newest are closed and await nothing. */
  predicate OlderSettled(xs: seq<Incident>) {
    forall i :: 0 <= i < |xs| - 1 ==> !IsOpen(xs[i]) && !AwaitsRecovery(xs[i])
  }

  predicate EventKnown(c: Config, xs: seq<Incident>, e: Event) {
    && e.id < |xs|
    && (e.Delivered? ==> NotifiedAt(xs[e.id], e.phase == Outage).Some?)
    && (e.Reserved? ==>
          && LastAttempt(xs[e.id], e.phase == Outage).Some?
          && e.at <= LastAttempt(xs[e.id], e.phase == Outage).value
          && (e.phase == Outage ==> e.at - xs[e.id].startedAt >= c.threshold))
  }

  /** What an earlier and a later entry of the log may be. */
  predicate InOrder(c: Config, a: Event, b: Event) {
    && (a.Reserved? && b.Reserved? && a.id == b.id && (a.phase == Outage <==> b.phase == Outage) ==>
          b.at - a.at >= c.retry)
    && (a.Delivered? && b.Delivered? && a.id == b.id ==> a.phase == Outage && b.phase != Outage)
    && (a.Started? && b.Delivered? ==> b.id >= a.id)
  }

  predicate Sound(c: Config, l: Ledger) {
    && (forall i :: 0 <= i < |l.incidents| ==> RowSound(l.incidents[i]))
    && OlderSettled(l.incidents)
    && (forall k :: 0 <= k < |l.log| ==> EventKnown(c, l.incidents, l.log[k]))
    && (forall j, k :: 0 <= j < k < |l.log| ==> InOrder(c, l.log[j], l.log[k]))
  }

  // ---- each update keeps it --------------------------------------------------------------------------------

  /** One row changes; nothing already logged about it is lost, and at most one event is added. */
  lemma {:induction false} UpdateKeeps(c: Config, l: Ledger, i: nat, y: Incident, added: seq<Event>)
    requires Sound(c, l) && i < |l.incidents|
    requires RowSound(y) && y.startedAt == l.incidents[i].startedAt
    requires forall outage :: NotifiedAt(l.incidents[i], outage).Some? ==> NotifiedAt(y, outage).Some?
    requires forall outage :: LastAttempt(l.incidents[i], outage).Some? ==>
      LastAttempt(y, outage).Some? && LastAttempt(l.incidents[i], outage).value <= LastAttempt(y, outage).value
    requires i < |l.incidents| - 1 ==> !IsOpen(y) && !AwaitsRecovery(y)
    requires |added| <= 1
    requires |added| == 1 ==>
      EventKnown(c, l.incidents[i := y], added[0]) && forall j :: 0 <= j < |l.log| ==> InOrder(c, l.log[j], added[0])
    ensures Sound(c, Ledger(l.incidents[i := y], l.log + added))
  {
    var xs := l.incidents[i := y];
    forall k | 0 <= k < |l.log| ensures EventKnown(c, xs, l.log[k]) {
      assert EventKnown(c, l.incidents, l.log[k]);
      var e := l.log[k];
      if e.id == i && (e.Delivered? || e.Reserved?) {
        var outage := e.phase == Outage;
        assert NotifiedAt(l.incidents[i], outage).Some? ==> NotifiedAt(y, outage).Some?;
        assert LastAttempt(l.incidents[i], outage).Some? ==>
          LastAttempt(y, outage).Some? && LastAttempt(l.incidents[i], outage).value <= LastAttempt(y, outage).value;
      }
    }
  }

  lemma {:induction false} AbandonFirstKeeps(c: Config, l: Ledger, n: nat, now: int)
    requires Sound(c, l) && n <= |l.incidents|
    ensures Sound(c, AbandonFirst(l, n, now))
    ensures forall i :: 0 <= i < n ==> !AwaitsRecovery(AbandonFirst(l, n, now).incidents[i])
  {
    if n > 0 {
      AbandonFirstKeeps(c, l, n - 1, now);
      var r := AbandonFirst(l, n - 1, now);
      if AwaitsRecovery(r.incidents[n - 1]) {
        UpdateKeeps(c, r, n - 1, r.incidents[n - 1].(abandonedAt := Some(now)), [Abandoned(n - 1, now)]);
      }
    }
  }

  lemma {:induction false} StartKeeps(c: Config, l: Ledger, kind: string, now: int)
    requires Sound(c, l) && FindOpen(l.incidents) == None
    requires forall i :: 0 <= i < |l.incidents| ==> !AwaitsRecovery(l.incidents[i])
    ensures Sound(c, Start(l, kind, now))
  {
    var r := Start(l, kind, now);
    forall k | 0 <= k < |r.log| ensures EventKnown(c, r.incidents, r.log[k]) {
      if k < |l.log| {
        assert EventKnown(c, l.incidents, l.log[k]);
      }
    }
  }

  lemma {:induction false} RepeatKeeps(c: Config, l: Ledger, i: nat, kind: string, now: int)
    requires Sound(c, l) && i < |l.incidents|
    ensures Sound(c, Repeat(l, i, kind, now))
  {
    var x := l.incidents[i];
    UpdateKeeps(c, l, i, x.(lastFailureAt := now, failures := x.failures + 1, kind := kind), []);
    assert l.log + [] == l.log;
  }

  lemma {:induction false} RecoverKeeps(c: Config, l: Ledger, i: nat, now: int)
    requires Sound(c, l) && i < |l.incidents| && IsOpen(l.incidents[i])
    ensures Sound(c, Recover(l, i, now))
    ensures i == |l.incidents| - 1
  {
    UpdateKeeps(c, l, i, l.incidents[i].(recoveredAt := Some(now)), [Recovered(i, now)]);
  }

  /** A reservation is allowed on the newest incident, once the last one of its kind is old enough. */
  lemma {:induction false} ReserveKeeps(c: Config, l: Ledger, i: nat, phase: Phase, now: int)
    requires Sound(c, l) && c.retry >= 1 && i == |l.incidents| - 1
    requires phase == Outage ==> OutageDue(c, l.incidents[i], now)
    requires phase != Outage ==> AwaitsRecovery(l.incidents[i])
    requires LastAttempt(l.incidents[i], phase == Outage).Some? ==>
      now - LastAttempt(l.incidents[i], phase == Outage).value >= c.retry
    ensures Sound(c, Reserve(l, i, phase, now))
  {
    var x, e, r := l.incidents[i], Reserved(i, phase, now), Reserve(l, i, phase, now);
    forall j | 0 <= j < |l.log| ensures InOrder(c, l.log[j], e) {
      assert EventKnown(c, l.incidents, l.log[j]);
    }
    var y := if phase == Outage then x.(outageAttempt := Some(now)) else x.(recoveryAttempt := Some(now));
    assert r.incidents[i] == y;
    UpdateKeeps(c, l, i, y, [e]);
  }

  lemma {:induction false} FailKeeps(c: Config, l: Ledger, kind: string, now: int)
    requires Sound(c, l) && c.retry >= 1
    ensures Sound(c, Fail(c, l, kind, now).0)
  {
    var settled := AbandonFirst(l, |l.incidents|, now);
    AbandonFirstKeeps(c, l, |l.incidents|, now);
    var (failing, i) := Failing(settled, kind, now);
    if FindOpen(settled.incidents) == None {
      StartKeeps(c, settled, kind, now);
    } else {
      RepeatKeeps(c, settled, i, kind, now);
    }
    assert i == |failing.incidents| - 1;
    if OutageDue(c, failing.incidents[i], now) {
      ReserveKeeps(c, failing, i, Outage, now);
    }
  }

  lemma {:induction false} SucceedKeeps(c: Config, l: Ledger, now: int)
    requires Sound(c, l) && c.retry >= 1
    ensures Sound(c, Succeed(c, l, now).0)
  {
    match FindOpen(l.incidents)
    case Some(i) =>
      RecoverKeeps(c, l, i, now);
      if l.incidents[i].outageAttempt.Some? {
        assert RowSound(l.incidents[i]);
        ReserveKeeps(c, Recover(l, i, now), i, RecoveryPhase(l.incidents[i]), now);
      }
    case None =>
      match NewestAwaiting(l.incidents)
      case None =>
      case Some(i) =>
        var x := l.incidents[i];
        assert i == |l.incidents| - 1;
        if !(x.recoveryAttempt.Some? && now - x.recoveryAttempt.value < c.retry) {
          ReserveKeeps(c, l, i, RecoveryPhase(x), now);
        }
  }

  lemma {:induction false} DispatchedKeeps(c: Config, l: Ledger, a: Action, d: Delivery)
    requires Sound(c, l)
    ensures Sound(c, Dispatched(l, a, d))
  {
    if Dispatchable(l, a) {
      var x, outage := l.incidents[a.id], a.phase == Outage;
      assert RowSound(x);
      match d
      case Answered(at) =>
        var e := Delivered(a.id, a.phase, at);
        assert a.id == |l.incidents| - 1;
        forall j | 0 <= j < |l.log| ensures InOrder(c, l.log[j], e) {
          assert EventKnown(c, l.incidents, l.log[j]);
          assert l.log[j].Delivered? && l.log[j].id == a.id && l.log[j].phase != Outage ==> x.recoveryNotified.Some?;
        }
        UpdateKeeps(
          c, l, a.id, if outage then x.(outageNotified := Some(at)) else x.(recoveryNotified := Some(at)), [e]);
      case Failed =>
        UpdateKeeps(c, l, a.id, x, [DeliveryFailed(a.id, a.phase)]);
        assert l.incidents[a.id := x] == l.incidents;
      case Died =>
    }
  }

  // ---- whole runs --------------------------------------------------------------------------------------------

  /** Any operation may follow any other, with any clock reading and any action, old or new. */
  datatype Step =
    | Failure(kind: string, now: int)
    | Success(now: int)
    | Dispatch(action: Action, delivery: Delivery)

  function After(c: Config, l: Ledger, s: Step): Ledger {
    match s
    case Failure(kind, now) => Fail(c, l, kind, now).0
    case Success(now) => Succeed(c, l, now).0
    case Dispatch(action, delivery) => Dispatched(l, action, delivery)
  }

  function Ran(c: Config, steps: seq<Step>): Ledger {
    if steps == [] then Ledger([], []) else After(c, Ran(c, Init(steps)), Last(steps))
  }

  lemma {:induction false} RunIsSound(c: Config, steps: seq<Step>)
    requires c.retry >= 1
    ensures Sound(c, Ran(c, steps))
  {
    if steps != [] {
      var l := Ran(c, Init(steps));
      RunIsSound(c, Init(steps));
      match Last(steps)
      case Failure(kind, now) => FailKeeps(c, l, kind, now);
      case Success(now) => SucceedKeeps(c, l, now);
      case Dispatch(action, delivery) => DispatchedKeeps(c, l, action, delivery);
    }
  }

  /** In every reachable table at most one incident is open or awaits a recovery notice, and it is the newest. */
  lemma {:induction false} OneIncidentAtATime(c: Config, steps: seq<Step>, i: nat)
    requires c.retry >= 1 && i < |Ran(c, steps).incidents|
    requires IsOpen(Ran(c, steps).incidents[i]) || AwaitsRecovery(Ran(c, steps).incidents[i])
    ensures i == |Ran(c, steps).incidents| - 1
    ensures !(IsOpen(Ran(c, steps).incidents[i]) && AwaitsRecovery(Ran(c, steps).incidents[i]))
  {
    RunIsSound(c, steps);
  }

  /** Per incident at most one outage and then at most one recovery is recorded as delivered. */
  lemma {:induction false} DeliveriesAreOrdered(c: Config, steps: seq<Step>, j: nat, k: nat)
    requires c.retry >= 1 && j < k < |Ran(c, steps).log|
    requires Ran(c, steps).log[j].Delivered? && Ran(c, steps).log[k].Delivered?
    requires Ran(c, steps).log[j].id == Ran(c, steps).log[k].id
    ensures Ran(c, steps).log[j].phase == Outage && Ran(c, steps).log[k].phase != Outage
  {
    RunIsSound(c, steps);
    assert InOrder(c, Ran(c, steps).log[j], Ran(c, steps).log[k]);
  }

  /** Nothing is delivered for an older incident once a newer one has started. */
  lemma {:induction false} OldIncidentsStaySilent(c: Config, steps: seq<Step>, j: nat, k: nat)
    requires c.retry >= 1 && j < k < |Ran(c, steps).log|
    requires Ran(c, steps).log[j].Started? && Ran(c, steps).log[k].Delivered?
    ensures Ran(c, steps).log[k].id >= Ran(c, steps).log[j].id
  {
    RunIsSound(c, steps);
    assert InOrder(c, Ran(c, steps).log[j], Ran(c, steps).log[k]);
  }

  /** Reservations of one incident and phase are a retry interval apart; outages wait for the threshold. */
  lemma {:induction false} ReservationsAreSpaced(c: Config, steps: seq<Step>, j: nat, k: nat)
    requires c.retry >= 1 && j < k < |Ran(c, steps).log|
    requires Ran(c, steps).log[j].Reserved? && Ran(c, steps).log[k].Reserved?
    requires Ran(c, steps).log[j].id == Ran(c, steps).log[k].id
    requires Ran(c, steps).log[j].phase == Outage <==> Ran(c, steps).log[k].phase == Outage
    ensures Ran(c, steps).log[k].at - Ran(c, steps).log[j].at >= c.retry
  {
    RunIsSound(c, steps);
    assert InOrder(c, Ran(c, steps).log[j], Ran(c, steps).log[k]);
  }

  lemma {:induction false} OutagesWaitForThreshold(c: Config, steps: seq<Step>, k: nat)
    requires c.retry >= 1 && k < |Ran(c, steps).log|
    requires Ran(c, steps).log[k].Reserved? && Ran(c, steps).log[k].phase == Outage
    ensures Ran(c, steps).log[k].id < |Ran(c, steps).incidents|
    ensures Ran(c, steps).log[k].at - Ran(c, steps).incidents[Ran(c, steps).log[k].id].startedAt >= c.threshold
  {
    RunIsSound(c, steps);
    assert EventKnown(c, Ran(c, steps).incidents, Ran(c, steps).log[k]);
  }

  // ---- the tracker ---------------------------------------------------------------------------------------------

  class Tracker {
    const config: Config
    var incidents: seq<Incident>
    var log: seq<Event>

    ghost predicate Valid()
      reads this
    {
      config.threshold >= 1 && config.retry >= 1 && Sound(config, Ledger(incidents, log))
    }

    constructor (threshold: int, retry: int)
      requires threshold >= 1 && retry >= 1
      ensures Valid() && config == Config(threshold, retry) && incidents == [] && log == []
    {
      config, incidents, log := Config(threshold, retry), [], [];
    }

    method RecordFailure(kind: string, now: int) returns (action: Option<Action>)
      requires Valid()
      modifies this`incidents, this`log
      ensures Valid()
      ensures (Ledger(incidents, log), action) == Fail(config, old(Ledger(incidents, log)), kind, now)
    {
      ghost var l := Ledger(incidents, log);
      FailKeeps(config, l, kind, now);
      for i := 0 to |incidents|
        invariant |incidents| == |l.incidents| && Ledger(incidents, log) == AbandonFirst(l, i, now)
      {
        if AwaitsRecovery(incidents[i]) {
          incidents := incidents[i := incidents[i].(abandonedAt := Some(now))];
          log := log + [Abandoned(i, now)];
        }
      }
      var open := FindOpen(incidents);
      var id;
      if open == None {
        id := |incidents|;
        incidents := incidents + [Incident(now, now, 1, kind, None, None, None, None, None, None)];
        log := log + [Started(id, now)];
      } else {
        id := open.value;
        var x := incidents[id];
        incidents := incidents[id := x.(lastFailureAt := now, failures := x.failures + 1, kind := kind)];
      }
      var x := incidents[id];
      var due := x.outageNotified == None && now - x.startedAt >= config.threshold
        && (x.outageAttempt == None || now - x.outageAttempt.value >= config.retry);
      if !due {
        return None;
      }
      incidents := incidents[id := x.(outageAttempt := Some(now))];
      log := log + [Reserved(id, Outage, now)];
      return Some(Action(id, Outage, kind, x.startedAt, None, now));
    }

    method RecordSuccess(now: int) returns (action: Option<Action>)
      requires Valid()
      modifies this`incidents, this`log
      ensures Valid()
      ensures (Ledger(incidents, log), action) == Succeed(config, old(Ledger(incidents, log)), now)
    {
      SucceedKeeps(config, Ledger(incidents, log), now);
      var id, recoveredAt;
      var open := FindOpen(incidents);
      if open.Some? {
        id, recoveredAt := open.value, now;
        assert RowSound(incidents[id]);
        incidents := incidents[id := incidents[id].(recoveredAt := Some(now))];
        log := log + [Recovered(id, now)];
        if incidents[id].outageAttempt == None {
          return None;
        }
      } else {
        var awaiting := NewestAwaiting(incidents);
        if awaiting == None {
          return None;
        }
        id, recoveredAt := awaiting.value, incidents[awaiting.value].recoveredAt.value;
        if incidents[id].recoveryAttempt.Some? && now - incidents[id].recoveryAttempt.value < config.retry {
          return None;
        }
      }
      var x := incidents[id];
      var retried := x.recoveryNotified == None && x.abandonedAt == None;
      incidents := incidents[id := if retried then x.(recoveryAttempt := Some(now)) else x];
      log := log + [Reserved(id, RecoveryPhase(x), now)];
      return Some(Action(id, RecoveryPhase(x), x.kind, x.startedAt, Some(recoveredAt), now));
    }

    /** `delivery` is how sending went; it happens only for the current reservation. */
    method DispatchNotice(a: Action, delivery: Delivery) returns (stale: bool)
      requires Valid()
      modifies this`incidents, this`log
      ensures Valid()
      ensures stale <==> !Dispatchable(old(Ledger(incidents, log)), a)
      ensures Ledger(incidents, log) == Dispatched(old(Ledger(incidents, log)), a, delivery)
    {
      DispatchedKeeps(config, Ledger(incidents, log), a, delivery);
      if !Dispatchable(Ledger(incidents, log), a) {
        return true;
      }
      stale := false;
      match delivery
      case Answered(at) =>
        var x := incidents[a.id];
        var notified := if a.phase == Outage then x.(outageNotified := Some(at)) else x.(recoveryNotified := Some(at));
        incidents := incidents[a.id := notified];
        log := log + [Delivered(a.id, a.phase, at)];
      case Failed =>
        log := log + [DeliveryFailed(a.id, a.phase)];
      case Died =>
    }
  }
}
