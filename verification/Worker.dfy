/**
 The acquisition worker: several processes share one journal and one calendar, and two try-locks
 are the only routes to appending.  A process that dies releases its locks.

 An attempt is recorded only for a request planned from a journal read under the network lock, by
 a clock that does not run backwards inside one locked section.
 */
module Worker {
  import opened Prelude
  import opened Calendar
  import opened Evidence
  import opened WorkerRuntime
  import Fairness
  import Journal
  import Planner
  import Receipts

  /** What a process holds and has read. */
  datatype Stage =
    | Idle
    | Capturing                                            // custody lock
    | Acquiring                                            // network lock
    | Planning(plan: Fairness.Planning)                    // network lock, journal read
    | Sealing                                              // both locks
    | SealingRead(records: seq<Row>)                       // both locks, journal read
    | SealingLoaded(records: seq<Row>, versions: seq<Version>)

  /** `plans` remembers what each recorded attempt was planned from; no process reads it. */
  datatype World = World(
    rows: seq<Row>, versions: seq<Version>, network: Option<nat>, custody: Option<nat>, stages: map<nat, Stage>,
    plans: seq<Fairness.Planning>)

  datatype System = System(setup: Setup, setting: Planner.Setting)

  datatype Step =
    | TakeCustody(p: nat)
    | TakeNetwork(p: nat)
    | TakeBoth(p: nat)
    | Release(p: nat)
    | Write(p: nat, event: Event)
    | Plan(p: nat, jobs: seq<Job>, now: int)
    | WriteAttempt(p: nat, at: int)
    | ReadJournal(p: nat)
    | ReadCalendar(p: nat)
    | WriteSeal(p: nat, now: int, at: int)
    | Extend(version: Version)

  function StageOf(w: World, p: nat): Stage {
    if p in w.stages then w.stages[p] else Stage.Idle
  }

  predicate HoldsBoth(stage: Stage) {
    stage.Sealing? || stage.SealingRead? || stage.SealingLoaded?
  }

  predicate HoldsNetwork(stage: Stage) {
    stage.Acquiring? || stage.Planning? || HoldsBoth(stage)
  }

  predicate HoldsCustody(stage: Stage) {
    stage.Capturing? || HoldsBoth(stage)
  }

  /** The kinds each lock protects besides attempts and seals; both routes also write heartbeats. */
  predicate MayWrite(stage: Stage, ev: Event) {
    match ev.kind
    case Custody => stage.Capturing? && ev.payload.CaseOf?
    case CustodyPoll => stage.Capturing? && ev.payload.PollOf?
    case Response => stage.Acquiring? && ev.payload.SourceOf?
    case Cycle => (stage.Capturing? || stage.Acquiring?) && ev.payload.CycleOf?
    case _ => false
  }

  // ---- steps ----------------------------------------------------------------------------------------------

  /** The planner makes a request, and the attempt is recorded no earlier than it was planned. */
  predicate CanAttempt(u: System, plan: Fairness.Planning, at: int) {
    && plan.seen != [] && Typed(plan.seen)
    && Planner.Next(u.setting, plan.seen, plan.jobs, plan.now).Some?
    && plan.now <= at
  }

  /** Locks are only tried, never waited for. */
  predicate Can(u: System, w: World, s: Step) {
    match s
    case TakeCustody(p) => StageOf(w, p).Idle? && w.custody == None
    case TakeNetwork(p) => StageOf(w, p).Idle? && w.network == None
    case TakeBoth(p) => StageOf(w, p).Acquiring? && w.custody == None
    case Release(p) => true
    case Write(p, ev) => MayWrite(StageOf(w, p), ev)
    case Plan(p, _, _) => StageOf(w, p).Acquiring? && w.rows != [] && Typed(w.rows)
    case WriteAttempt(p, at) => StageOf(w, p).Planning? && CanAttempt(u, StageOf(w, p).plan, at)
    case ReadJournal(p) => StageOf(w, p).Sealing?
    case ReadCalendar(p) => StageOf(w, p).SealingRead?
    case WriteSeal(p, _, _) => StageOf(w, p).SealingLoaded? && StageOf(w, p).records != []
      && StageOf(w, p).versions != []
    case Extend(_) => true
  }

  function PlannedEvent(u: System, plan: Fairness.Planning, at: int): Event
    requires CanAttempt(u, plan, at)
  {
    AttemptEvent(Planner.Next(u.setting, plan.seen, plan.jobs, plan.now).value, at)
  }

  /** `Release` covers leaving a locked section and dying anywhere inside it. */
  function Do(u: System, w: World, s: Step): World
    requires Can(u, w, s)
  {
    match s
    case TakeCustody(p) => w.(custody := Some(p), stages := w.stages[p := Capturing])
    case TakeNetwork(p) => w.(network := Some(p), stages := w.stages[p := Acquiring])
    case TakeBoth(p) => w.(custody := Some(p), stages := w.stages[p := Sealing])
    case Release(p) =>
      w.(network := if w.network == Some(p) then None else w.network,
         custody := if w.custody == Some(p) then None else w.custody,
         stages := w.stages[p := Stage.Idle])
    case Write(_, ev) => w.(rows := Appended(u.setup, w.rows, ev))
    case Plan(p, jobs, now) => w.(stages := w.stages[p := Planning(Fairness.Planning(w.rows, jobs, now))])
    case WriteAttempt(p, at) =>
      var plan := StageOf(w, p).plan;
      var next := Appended(u.setup, w.rows, PlannedEvent(u, plan, at));
      w.(rows := next, stages := w.stages[p := Acquiring],
         plans := if next == w.rows then w.plans else w.plans + [plan])
    case ReadJournal(p) => w.(stages := w.stages[p := SealingRead(w.rows)])
    case ReadCalendar(p) => w.(stages := w.stages[p := SealingLoaded(StageOf(w, p).records, w.versions)])
    case WriteSeal(p, now, at) =>
      w.(rows := Sealed(u.setup, w.rows, StageOf(w, p).records, StageOf(w, p).versions, now, at),
         stages := w.stages[p := Sealing])
    case Extend(v) => w.(versions := w.versions + [v])
  }

  // ---- what every reachable world keeps ---------------------------------------------------------------------

  ghost predicate LocksExclude(w: World) {
    forall p :: p in w.stages ==>
      && (HoldsNetwork(w.stages[p]) ==> w.network == Some(p))
      && (HoldsCustody(w.stages[p]) ==> w.custody == Some(p))
  }

  /** What a sealing process has read is still current. */
  ghost predicate ReadsCurrent(w: World) {
    forall p :: p in w.stages ==>
      && (w.stages[p].SealingRead? ==> w.stages[p].records == w.rows)
      && (w.stages[p].SealingLoaded? ==>
            w.stages[p].records == w.rows && w.stages[p].versions <= w.versions && w.stages[p].versions != [])
  }

  /** Since a process planned under the network lock, no attempt has been recorded. */
  ghost predicate PlansCurrent(w: World)
    requires Typed(w.rows)
  {
    forall p :: p in w.stages && w.stages[p].Planning? ==> PlanIsCurrent(w.rows, w.stages[p].plan)
  }

  predicate PlanIsCurrent(rows: seq<Row>, plan: Fairness.Planning)
    requires Typed(rows)
  {
    plan.seen != [] && plan.seen <= rows && Typed(plan.seen) && Attempts(plan.seen) == Attempts(rows)
  }

  ghost predicate Sound(u: System, w: World) {
    && Journal.Accepted(u.setup.codec, w.rows)
    && Typed(w.rows)
    && PlansCurrent(w)
    && Fairness.PlannedRun(u.setting, w.rows, w.plans)
    && w.versions != []
    && LocksExclude(w)
    && ReadsCurrent(w)
    && (Last(w.rows).kind == Journal.Seal ==> Status(u.setup, w.rows, w.versions).Ok?)
  }

  /** Recording anything but an attempt leaves every plan as current as it was. */
  lemma {:induction false} OtherRowsKeepPlans(u: System, rows: seq<Row>, plans: seq<Fairness.Planning>, row: Row)
    requires Typed(rows) && TypedRow(row) && row.kind != Journal.Attempt
    requires Fairness.PlannedRun(u.setting, rows, plans)
    ensures Typed(rows + [row]) && Attempts(rows + [row]) == Attempts(rows)
    ensures Fairness.PlannedRun(u.setting, rows + [row], plans)
    ensures forall plan :: PlanIsCurrent(rows, plan) ==> PlanIsCurrent(rows + [row], plan)
  {
    assert Init(rows + [row]) == rows && Last(rows + [row]) == row;
    Fairness.PlansKept(u.setting, rows, row, plans);
  }

  /** Recording the request of a current plan continues the planned run by that plan. */
  lemma {:induction false} AttemptExtendsRun(
    u: System, rows: seq<Row>, plans: seq<Fairness.Planning>, plan: Fairness.Planning, at: int)
    requires Typed(rows) && Fairness.PlannedRun(u.setting, rows, plans)
    requires PlanIsCurrent(rows, plan) && CanAttempt(u, plan, at)
    ensures var next := rows + [Journal.NewRow(u.setup.codec, rows, PlannedEvent(u, plan, at))];
      Typed(next) && Fairness.PlannedRun(u.setting, next, plans + [plan])
  {
    var row := Journal.NewRow(u.setup.codec, rows, PlannedEvent(u, plan, at));
    var next := rows + [row];
    assert Init(next) == rows && Last(next) == row;
    Fairness.PlansKept(u.setting, rows, row, plans);
    assert Attempts(next)[..|plans|] == Attempts(rows);
  }

  lemma {:induction false} WriteKeeps(u: System, w: World, s: Step)
    requires Sound(u, w) && Can(u, w, s) && s.Write?
    ensures Sound(u, Do(u, w, s))
  {
    AppendKeepsAccepted(u.setup, w.rows, s.event);
    assert forall p :: p in w.stages ==> !HoldsBoth(w.stages[p]);
    if Do(u, w, s).rows != w.rows {
      OtherRowsKeepPlans(u, w.rows, w.plans, Journal.NewRow(u.setup.codec, w.rows, s.event));
    }
  }

  /** Only one process can have planned, so the attempt spends the only plan there is. */
  lemma {:induction false} WriteAttemptKeeps(u: System, w: World, s: Step)
    requires Sound(u, w) && Can(u, w, s) && s.WriteAttempt?
    ensures Sound(u, Do(u, w, s))
  {
    var plan, w' := w.stages[s.p].plan, Do(u, w, s);
    AppendKeepsAccepted(u.setup, w.rows, PlannedEvent(u, plan, s.at));
    OnlyOneNetworkHolder(w, w', s.p);
    assert PlanIsCurrent(w.rows, plan);
    if w'.rows != w.rows {
      AttemptExtendsRun(u, w.rows, w.plans, plan, s.at);
    }
  }

  /** When the only network holder goes back to acquiring, no plan and no seal is in preparation. */
  lemma {:induction false} OnlyOneNetworkHolder(w: World, w': World, p: nat)
    requires LocksExclude(w) && p in w.stages && HoldsNetwork(w.stages[p]) && !HoldsBoth(w.stages[p])
    requires w'.stages == w.stages[p := Acquiring] && w'.network == w.network && w'.custody == w.custody
    ensures LocksExclude(w') && ReadsCurrent(w')
    ensures forall q :: q in w'.stages ==> !w'.stages[q].Planning?
  {
    assert forall q :: q in w.stages && q != p ==> !HoldsNetwork(w.stages[q]);
  }

  /** While a process holds both locks, no other has a plan or a seal in preparation. */
  lemma {:induction false} SealingIsAlone(w: World, w': World, p: nat)
    requires LocksExclude(w) && p in w.stages && HoldsBoth(w.stages[p])
    requires w'.stages == w.stages[p := Sealing] && w'.network == w.network && w'.custody == w.custody
    ensures LocksExclude(w') && ReadsCurrent(w')
    ensures forall q :: q in w'.stages ==> !w'.stages[q].Planning?
  {
    assert forall q :: q in w.stages && q != p ==> !HoldsNetwork(w.stages[q]) && !HoldsCustody(w.stages[q]);
  }

  lemma {:induction false} WriteSealKeeps(u: System, w: World, s: Step)
    requires Sound(u, w) && Can(u, w, s) && s.WriteSeal?
    ensures Sound(u, Do(u, w, s))
  {
    var loaded, w' := w.stages[s.p], Do(u, w, s);
    assert loaded.records == w.rows;
    SealingIsAlone(w, w', s.p);
    if w'.rows != w.rows {
      var sha := u.setup.reporter.sha(loaded.records, loaded.versions, s.now).value;
      AppendKeepsAccepted(u.setup, w.rows, SealEvent(w.rows, loaded.versions, s.now, sha, s.at));
      FreshSealReplays(u.setup, w.rows, loaded.versions, w.versions, s.now, sha, s.at);
      OtherRowsKeepPlans(u, w.rows, w.plans, Last(w'.rows));
    }
  }

  /** Nothing but the locks and stages changed, and those keep excluding one another. */
  lemma {:induction false} SameRecords(u: System, w: World, w': World)
    requires Sound(u, w)
    requires w'.rows == w.rows && w'.versions == w.versions && w'.plans == w.plans
    requires LocksExclude(w') && ReadsCurrent(w') && PlansCurrent(w')
    ensures Sound(u, w')
  {
  }

  lemma {:induction false} TakingKeeps(u: System, w: World, s: Step)
    requires Sound(u, w) && Can(u, w, s)
    requires s.TakeCustody? || s.TakeNetwork? || s.TakeBoth?
    ensures Sound(u, Do(u, w, s))
  {
    var w' := Do(u, w, s);
    assert LocksExclude(w');
    SameRecords(u, w, w');
  }

  lemma {:induction false} ReleaseKeeps(u: System, w: World, s: Step)
    requires Sound(u, w) && Can(u, w, s) && s.Release?
    ensures Sound(u, Do(u, w, s))
  {
    SameRecords(u, w, Do(u, w, s));
  }

  lemma {:induction false} ReadingKeeps(u: System, w: World, s: Step)
    requires Sound(u, w) && Can(u, w, s)
    requires s.Plan? || s.ReadJournal? || s.ReadCalendar?
    ensures Sound(u, Do(u, w, s))
  {
    var w' := Do(u, w, s);
    assert LocksExclude(w');
    SameRecords(u, w, w');
  }

  lemma {:induction false} StepKeepsSound(u: System, w: World, s: Step)
    requires Sound(u, w) && Can(u, w, s)
    ensures Sound(u, Do(u, w, s))
  {
    match s
    case Write(_, _) => WriteKeeps(u, w, s);
    case WriteAttempt(_, _) => WriteAttemptKeeps(u, w, s);
    case WriteSeal(_, _, _) => WriteSealKeeps(u, w, s);
    case Extend(version) =>
      if Last(w.rows).kind == Journal.Seal {
        StatusSurvivesExtension(u.setup, w.rows, w.versions, w.versions + [version]);
      }
    case Plan(_, _, _) => ReadingKeeps(u, w, s);
    case ReadJournal(_) => ReadingKeeps(u, w, s);
    case ReadCalendar(_) => ReadingKeeps(u, w, s);
    case Release(_) => ReleaseKeeps(u, w, s);
    case _ => TakingKeeps(u, w, s);
  }

  // ---- whole runs ----------------------------------------------------------------------------------------------

  ghost predicate Run(u: System, worlds: seq<World>, steps: seq<Step>) {
    && |worlds| == |steps| + 1
    && forall i :: 0 <= i < |steps| ==> Moves(u, worlds[i], steps[i], worlds[i + 1])
  }

  ghost predicate Moves(u: System, w: World, s: Step, w': World) {
    Can(u, w, s) && w' == Do(u, w, s)
  }

  /** Activated: one accepted activation record, a calendar baseline, and no process running. */
  ghost predicate Fresh(u: System, w: World) {
    && Journal.Accepted(u.setup.codec, w.rows) && |w.rows| == 1 && Typed(w.rows) && w.plans == []
    && w.versions != [] && w.network == None && w.custody == None && w.stages == map[]
  }

  lemma {:induction false} RunIsSound(u: System, worlds: seq<World>, steps: seq<Step>, i: nat)
    requires Run(u, worlds, steps) && Fresh(u, worlds[0]) && i < |worlds|
    ensures Sound(u, worlds[i])
  {
    if i == 0 {
      Journal.ChainedAt(u.setup.codec, worlds[0].rows, 0);
    } else {
      RunIsSound(u, worlds, steps, i - 1);
      assert Moves(u, worlds[i - 1], steps[i - 1], worlds[i]);
      StepKeepsSound(u, worlds[i - 1], steps[i - 1]);
    }
  }

  /** One step after the seal: the journal and every status answer stay. */
  lemma {:induction false} MoveOnceSealed(u: System, w: World, s: Step, w': World)
    requires Sound(u, w) && Moves(u, w, s, w') && Last(w.rows).kind == Journal.Seal
    ensures w'.rows == w.rows && Status(u.setup, w'.rows, w'.versions) == Status(u.setup, w.rows, w.versions)
  {
    match s
    case Write(_, ev) => AppendKeepsAccepted(u.setup, w.rows, ev);
    case WriteAttempt(p, at) => AppendKeepsAccepted(u.setup, w.rows, PlannedEvent(u, StageOf(w, p).plan, at));
    case WriteSeal(p, _, _) => assert w.stages[p].records == w.rows;
    case Extend(v) => StatusSurvivesExtension(u.setup, w.rows, w.versions, w.versions + [v]);
    case _ =>
  }

  /** What a status reader learns from a world. */
  function Answer(u: System, w: World): (seq<Row>, Result<SealMaterial>) {
    (w.rows, Status(u.setup, w.rows, w.versions))
  }

  lemma {:induction false} AnswerStays(u: System, worlds: seq<World>, steps: seq<Step>, i: nat, j: nat)
    requires Run(u, worlds, steps) && i <= j < |worlds|
    requires forall k :: i <= k < j ==>
      Answer(u, worlds[k]) == Answer(u, worlds[i]) ==> Answer(u, worlds[k + 1]) == Answer(u, worlds[k])
    ensures Answer(u, worlds[j]) == Answer(u, worlds[i])
  {
    if i < j {
      AnswerStays(u, worlds, steps, i, j - 1);
    }
  }

  /**
   Once a run has sealed, the journal never changes again, and every later status recomputes the
   same digest from the records before the seal, whatever versions the calendar gained meanwhile.
   */
  lemma {:induction false} SealedReportReplays(u: System, worlds: seq<World>, steps: seq<Step>, i: nat, j: nat)
    requires Run(u, worlds, steps) && Fresh(u, worlds[0]) && i <= j < |worlds|
    requires worlds[i].rows != [] && Last(worlds[i].rows).kind == Journal.Seal
    ensures Status(u.setup, worlds[i].rows, worlds[i].versions).Ok?
    ensures worlds[j].rows == worlds[i].rows
    ensures Status(u.setup, worlds[j].rows, worlds[j].versions) == Status(u.setup, worlds[i].rows, worlds[i].versions)
  {
    RunIsSound(u, worlds, steps, i);
    forall k | i <= k < j && Answer(u, worlds[k]) == Answer(u, worlds[i])
      ensures Answer(u, worlds[k + 1]) == Answer(u, worlds[k])
    {
      RunIsSound(u, worlds, steps, k);
      assert Moves(u, worlds[k], steps[k], worlds[k + 1]);
      MoveOnceSealed(u, worlds[k], steps[k], worlds[k + 1]);
    }
    AnswerStays(u, worlds, steps, i, j);
  }

  /** The seal names the record immediately before it, though other processes run meanwhile. */
  lemma {:induction false} WatermarkIsPrevious(u: System, worlds: seq<World>, steps: seq<Step>, i: nat)
    requires Run(u, worlds, steps) && Fresh(u, worlds[0]) && i < |worlds|
    requires worlds[i].rows != [] && Last(worlds[i].rows).kind == Journal.Seal
    ensures var rows := worlds[i].rows;
      && |rows| >= 2 && TypedRow(Last(rows))
      && var m := Last(rows).raw.envelope.payload.material;
      && m.watermarkSequence == rows[|rows| - 2].sequence && m.watermarkSha == rows[|rows| - 2].sha
      && m.watermarkSequence == |rows| - 1
  {
    RunIsSound(u, worlds, steps, i);
    var rows := worlds[i].rows;
    assert Status(u.setup, rows, worlds[i].versions).Ok?;
    Journal.ChainedAt(u.setup.codec, rows, |rows| - 2);
  }

  /**
   However processes interleave, crash and restart, the attempts in the journal are a planned run:
   the spacing and the shares proved of planned runs hold of every journal a run reaches.
   */
  lemma {:induction false} AttemptsArePlanned(u: System, worlds: seq<World>, steps: seq<Step>, i: nat)
    requires Run(u, worlds, steps) && Fresh(u, worlds[0]) && i < |worlds|
    ensures Fairness.PlannedRun(u.setting, worlds[i].rows, worlds[i].plans)
    ensures forall k :: 0 < k < |worlds[i].plans| ==>
      Attempts(worlds[i].rows)[k].at - Attempts(worlds[i].rows)[k - 1].at >= 300_000_000
  {
    RunIsSound(u, worlds, steps, i);
    forall k | 0 < k < |worlds[i].plans|
      ensures Attempts(worlds[i].rows)[k].at - Attempts(worlds[i].rows)[k - 1].at >= 300_000_000
    {
      Fairness.AttemptsAreSpaced(u.setting, worlds[i].rows, worlds[i].plans, k);
    }
  }

  /** Two processes never hold the same lock. */
  lemma {:induction false} LocksAreExclusive(u: System, worlds: seq<World>, steps: seq<Step>, i: nat, p: nat, q: nat)
    requires Run(u, worlds, steps) && Fresh(u, worlds[0]) && i < |worlds| && p != q
    ensures !(HoldsNetwork(StageOf(worlds[i], p)) && HoldsNetwork(StageOf(worlds[i], q)))
    ensures !(HoldsCustody(StageOf(worlds[i], p)) && HoldsCustody(StageOf(worlds[i], q)))
  {
    RunIsSound(u, worlds, steps, i);
  }

  // ---- what a process can still do ---------------------------------------------------------------------------------

  /** The world after these steps, if each of them can be taken in turn. */
  function After(u: System, w: World, steps: seq<Step>): Option<World>
    decreases |steps|
  {
    if steps == [] then Some(w) else if Can(u, w, steps[0]) then After(u, Do(u, w, steps[0]), steps[1..]) else None
  }

  /** Whoever holds a lock may die, and then the locks are free and the tables as they were. */
  lemma {:induction false} LocksComeFree(u: System, w: World, p: nat, q: nat)
    requires w.network == None || w.network == Some(p)
    requires w.custody == None || w.custody == Some(q)
    ensures var after := After(u, w, [Release(p), Release(q)]);
      && after.Some?
      && after.value.network == None && after.value.custody == None
      && after.value.rows == w.rows && after.value.versions == w.versions && after.value.plans == w.plans
      && StageOf(after.value, p).Idle? && StageOf(after.value, q).Idle?
  {
    var first := Do(u, w, Release(p));
    assert After(u, first, [Release(q)]) == After(u, Do(u, first, Release(q)), []);
    assert [Release(p), Release(q)][1..] == [Release(q)] && [Release(q)][1..] == [];
  }

  /** An idle process that finds both locks free seals what the tables hold, if it is to be sealed at all. */
  lemma {:induction false} IdleProcessCanSeal(u: System, w: World, p: nat, now: int, at: int)
    requires Sound(u, w) && StageOf(w, p).Idle? && w.network == None && w.custody == None
    ensures var after := After(
        u, w, [TakeNetwork(p), TakeBoth(p), ReadJournal(p), ReadCalendar(p), WriteSeal(p, now, at)]);
      after.Some? && after.value.rows == Sealed(u.setup, w.rows, w.rows, w.versions, now, at)
  {
    var steps := [TakeNetwork(p), TakeBoth(p), ReadJournal(p), ReadCalendar(p), WriteSeal(p, now, at)];
    var w1 := Do(u, w, TakeNetwork(p));
    var w2 := Do(u, w1, TakeBoth(p));
    var w3 := Do(u, w2, ReadJournal(p));
    var w4 := Do(u, w3, ReadCalendar(p));
    var w5 := Do(u, w4, WriteSeal(p, now, at));
    assert steps[1..][1..][1..][1..][1..] == [];
    assert After(u, w4, steps[1..][1..][1..][1..]) == After(u, w5, []);
    assert After(u, w3, steps[1..][1..][1..]) == Some(w5);
    assert After(u, w2, steps[1..][1..]) == Some(w5);
    assert After(u, w1, steps[1..]) == Some(w5);
  }

  /** An idle process that finds the network lock free asks for what the planner plans from the present tables. */
  lemma {:induction false} IdleProcessCanAsk(
    u: System, w: World, p: nat, jobs: seq<Job>, now: int, at: int, request: Receipts.Intent)
    requires Sound(u, w) && StageOf(w, p).Idle? && w.network == None && now <= at
    requires Planner.Next(u.setting, w.rows, jobs, now) == Some(request)
    ensures var after := After(u, w, [TakeNetwork(p), Step.Plan(p, jobs, now), WriteAttempt(p, at)]);
      after.Some? && after.value.rows == Appended(u.setup, w.rows, AttemptEvent(request, at))
  {
    var steps := [TakeNetwork(p), Step.Plan(p, jobs, now), WriteAttempt(p, at)];
    var w1 := Do(u, w, TakeNetwork(p));
    var w2 := Do(u, w1, Step.Plan(p, jobs, now));
    var w3 := Do(u, w2, WriteAttempt(p, at));
    assert steps[1..][1..][1..] == [];
    assert After(u, w2, steps[1..][1..]) == After(u, w3, []);
    assert After(u, w1, steps[1..]) == Some(w3);
  }
}
