/**
 From custody records to acquisition jobs: the first record of each source row fixes its case, and
 each admitted case and the benchmark contribute their jobs.
 */
module Cases {
  import opened Prelude
  import opened Calendar
  import opened LocalTime
  import opened Window
  import opened Receipts
  import opened Evidence
  import Journal
  import Sorting

  const BENCHMARK_SYMBOL := "SPY"
  const DECISION_TIME := 33_600

  // ---- cases -----------------------------------------------------------------------------------

  /** Entities in the order of their first custody record. */
  function CaseOrder(rows: seq<Row>): seq<string> {
    if rows == [] then []
    else
      var earlier := CaseOrder(Init(rows));
      if Last(rows).kind == Journal.Custody && Last(rows).entity !in earlier then earlier + [Last(rows).entity]
      else earlier
  }

  function Revisions(rows: seq<Row>, entity: string): nat {
    if rows == [] then 0
    else
      Revisions(Init(rows), entity)
      + if Last(rows).kind == Journal.Custody && Last(rows).entity == entity then 1 else 0
  }

  /** The payload of the oldest custody record of an entity. */
  function FirstCase(rows: seq<Row>, entity: string): Option<CaseRecord>
    requires Typed(rows)
  {
    if rows == [] then None
    else if FirstCase(Init(rows), entity).Some? then FirstCase(Init(rows), entity)
    else if Last(rows).kind == Journal.Custody && Last(rows).entity == entity then Some(RecordOf(Last(rows)))
    else None
  }

  function RecordOf(row: Row): CaseRecord
    requires TypedRow(row) && row.kind == Journal.Custody
  {
    row.raw.envelope.payload.record
  }

  lemma {:induction false} CasesAreKnown(rows: seq<Row>, entity: string)
    requires Typed(rows)
    ensures entity in CaseOrder(rows) <==> FirstCase(rows, entity).Some?
    ensures entity in CaseOrder(rows) <==> Revisions(rows, entity) > 0
    ensures forall i, j :: 0 <= i < j < |CaseOrder(rows)| ==> CaseOrder(rows)[i] != CaseOrder(rows)[j]
  {
    if rows != [] {
      CasesAreKnown(Init(rows), entity);
    }
  }

  /** Later records only add cases at the end and raise revision counts; a first record is never replaced. */
  lemma {:induction false} CasesOnlyGrow(rows: seq<Row>, rows': seq<Row>, entity: string)
    requires Typed(rows') && rows <= rows'
    ensures Typed(rows)
    ensures CaseOrder(rows) <= CaseOrder(rows')
    ensures FirstCase(rows, entity).Some? ==> FirstCase(rows', entity) == FirstCase(rows, entity)
    ensures Revisions(rows, entity) <= Revisions(rows', entity)
  {
    assert forall i :: 0 <= i < |rows| ==> rows[i] == rows'[i];
    if rows != rows' {
      assert rows <= Init(rows');
      CasesOnlyGrow(rows, Init(rows'), entity);
    }
  }

  /** Three dictionaries, filled in one pass; the first record of a case stays. */
  method CollectCases(rows: seq<Row>)
    returns (order: seq<string>, cases: map<string, CaseRecord>, revisions: map<string, nat>)
    requires Typed(rows)
    ensures order == CaseOrder(rows)
    ensures forall e :: (if e in cases then Some(cases[e]) else None) == FirstCase(rows, e)
    ensures forall e :: (if e in revisions then revisions[e] else 0) == Revisions(rows, e)
  {
    order, cases, revisions := [], map[], map[];
    for i := 0 to |rows|
      invariant order == CaseOrder(rows[..i])
      invariant forall e :: (if e in cases then Some(cases[e]) else None) == FirstCase(rows[..i], e)
      invariant forall e :: (if e in revisions then revisions[e] else 0) == Revisions(rows[..i], e)
    {
      var row := rows[i];
      assert Init(rows[..i + 1]) == rows[..i] && Last(rows[..i + 1]) == row;
      if row.kind == Journal.Custody {
        CasesAreKnown(rows[..i], row.entity);
        assert (if row.entity in cases then Some(cases[row.entity]) else None) == FirstCase(rows[..i], row.entity);
        assert (if row.entity in revisions then revisions[row.entity] else 0) == Revisions(rows[..i], row.entity);
        if row.entity !in cases {
          order := order + [row.entity];
          cases := cases[row.entity := RecordOf(row)];
        }
        revisions := revisions[row.entity := (if row.entity in revisions then revisions[row.entity] else 0) + 1];
      }
    }
    assert rows[..|rows|] == rows;
  }

  // ---- the plan of an owner ------------------------------------------------------------------------

  /** Close of the last horizon session, if the calendar knows it. */
  function HorizonClose(k: Context, horizon: seq<int>): Option<int> {
    if horizon != [] && DayOf(k.days, Last(horizon)).fact.Trading?
    then Some(DayOf(k.days, Last(horizon)).fact.closesAt) else None
  }

  /** A case has a plan when it is admitted, its symbol is valid and its dates were computed. */
  function CasePlan(k: Context, entity: string, record: CaseRecord): Option<Plan> {
    var a := record.admission;
    if a.membership != Admitted || !a.symbolValid || a.dates == None || a.decisionCutoff == None then None
    else
      match HorizonClose(k, a.dates.value.horizon)
      case None => None
      case Some(close) =>
        Some(Plan(
          Case(entity), record.symbol, a.dates.value.history,
          Sorting.SortedSet(a.dates.value.history + a.dates.value.horizon),
          record.firstObservedAt, a.decisionCutoff.value, close))
  }

  function BenchmarkHistory(days: Days, from: int, before: int): seq<int>
    decreases before - from
  {
    if from >= before then []
    else (if DayOf(days, from).fact.Trading? then [from] else []) + BenchmarkHistory(days, from + 1, before)
  }

  function BenchmarkPlan(k: Context, m: Manifest): Option<Plan>
    requires |m.sessions| == WINDOW_SESSIONS
  {
    var history := BenchmarkHistory(k.days, m.earliestHistory, m.sessions[0].day);
    var horizon := DaysOf(m.sessions)[..19];
    match HorizonClose(k, horizon)
    case None => None
    case Some(close) =>
      Some(Plan(
        Benchmark, BENCHMARK_SYMBOL, history, Sorting.SortedSet(history + horizon), m.boundary,
        k.zone.at(m.sessions[0].day, DECISION_TIME), close))
  }

  /**
   Frozen receipts of a case: once a journal holds a case, every extension under the same calendar
   version keeps its place, its plan, its pinned contract and every receipt bound so far, however
   often the source row is revised.
   */
  lemma {:induction false} CaseReceiptsAreFrozen(
    c: Journal.Codec<Payload>, k: Context, rows: seq<Row>, rows': seq<Row>, entity: string)
    requires Journal.Accepted(c, rows) && Typed(rows') && rows <= rows'
    requires entity in CaseOrder(rows)
    ensures Typed(rows) && CaseOrder(rows) <= CaseOrder(rows') && FirstCase(rows, entity).Some?
    ensures FirstCase(rows', entity) == FirstCase(rows, entity)
    ensures var plan := CasePlan(k, entity, FirstCase(rows, entity).value);
      plan.Some? ==>
        var a, b := StagesOf(k, Exchanges(rows), plan.value), StagesOf(k, Exchanges(rows'), plan.value);
        && KeepsDecisions(a, b)
        && (a.second.Some? && a.third.Some? ==>
              (ProjectionStable(k, a, plan.value) <==> ProjectionStable(k, b, plan.value)))
  {
    CasesOnlyGrow(rows, rows', entity);
    CasesAreKnown(rows, entity);
    var plan := CasePlan(k, entity, FirstCase(rows, entity).value);
    if plan.Some? {
      ReceiptsAreFrozen(c, k, rows, rows', plan.value);
    }
  }

  // ---- what the report counts ----------------------------------------------------------------------------

  function CountOf(rows: seq<Row>, order: seq<string>, membership: Membership): nat
    requires Typed(rows)
  {
    if order == [] then 0
    else
      CountOf(rows, Init(order), membership)
      + match FirstCase(rows, Last(order))
        case Some(r) => if r.admission.membership == membership then 1 else 0
        case None => 0
  }

  /** Every case is counted under exactly one membership. */
  lemma {:induction false} MembershipsPartitionCases(rows: seq<Row>, n: nat)
    requires Typed(rows) && n <= |CaseOrder(rows)|
    ensures var order := CaseOrder(rows)[..n];
      CountOf(rows, order, Admitted) + CountOf(rows, order, Outside) + CountOf(rows, order, Unassignable)
      + CountOf(rows, order, Preexisting) == n
  {
    if n > 0 {
      MembershipsPartitionCases(rows, n - 1);
      assert Init(CaseOrder(rows)[..n]) == CaseOrder(rows)[..n - 1];
      CasesAreKnown(rows, CaseOrder(rows)[n - 1]);
    }
  }

  /** A membership, once counted, never moves to another count. */
  lemma {:induction false} CountsOnlyGrow(rows: seq<Row>, rows': seq<Row>, order: seq<string>, membership: Membership)
    requires Typed(rows') && rows <= rows'
    requires forall i :: 0 <= i < |order| ==> order[i] in CaseOrder(rows)
    ensures Typed(rows)
    ensures CountOf(rows', order, membership) == CountOf(rows, order, membership)
  {
    assert forall i :: 0 <= i < |rows| ==> rows[i] == rows'[i];
    if order != [] {
      CountsOnlyGrow(rows, rows', Init(order), membership);
      CasesOnlyGrow(rows, rows', Last(order));
      CasesAreKnown(rows, Last(order));
    }
  }

  // ---- jobs ------------------------------------------------------------------------------------------------

  /** A case without a plan has no jobs. */
  function OneCaseJobs(k: Context, rows: seq<Row>, entity: string): seq<Job>
    requires Typed(rows)
  {
    match FirstCase(rows, entity)
    case None => []
    case Some(record) =>
      match CasePlan(k, entity, record)
      case None => []
      case Some(plan) => StageJobs(k, Exchanges(rows), plan)
  }

  /** Jobs of the cases in order. */
  function CaseJobs(k: Context, rows: seq<Row>, order: seq<string>): seq<Job>
    requires Typed(rows)
  {
    if order == [] then [] else CaseJobs(k, rows, Init(order)) + OneCaseJobs(k, rows, Last(order))
  }

  function ScheduleJobs(k: Context, m: Manifest, conid: Option<int>, history: seq<int>, n: nat): seq<Job>
    requires |m.sessions| == WINDOW_SESSIONS && n <= WINDOW_SESSIONS
  {
    if n == 0 then []
    else
      var through := m.sessions[n - 1];
      ScheduleJobs(k, m, conid, history, n - 1)
      + [Job(JobKey(Benchmark, ScheduleThrough(through.day)), BENCHMARK_SYMBOL, history + DaysOf(m.sessions)[..n],
             if through.fact.Trading? then through.fact.closesAt else 0, k.deadline, conid, true)]
  }

  function CheckpointJob(k: Context, m: Manifest, conid: Option<int>, history: seq<int>): Job
    requires |m.sessions| == WINDOW_SESSIONS
  {
    Job(
      JobKey(Benchmark, CheckpointW10), BENCHMARK_SYMBOL, history + DaysOf(m.sessions)[..10],
      if m.sessions[9].fact.Trading? then m.sessions[9].fact.closesAt else 0, k.deadline, conid, false)
  }

  /** Every job the scheduler chooses from: the cases', the benchmark's stages, its checkpoint and its schedules. */
  function Jobs(k: Context, rows: seq<Row>, m: Manifest): Option<seq<Job>>
    requires Typed(rows) && |m.sessions| == WINDOW_SESSIONS
  {
    var xs := Exchanges(rows);
    match BenchmarkPlan(k, m)
    case None => None
    case Some(plan) =>
      var conid := Pin(xs, Benchmark);
      Some(CaseJobs(k, rows, CaseOrder(rows)) + StageJobs(k, xs, plan)
           + [CheckpointJob(k, m, conid, plan.history)]
           + ScheduleJobs(k, m, conid, plan.history, WINDOW_SESSIONS))
  }

  // ---- what each job asks for ------------------------------------------------------------------------------

  lemma {:induction false} CaseJobIsOnes(k: Context, rows: seq<Row>, order: seq<string>, job: Job)
    returns (entity: string)
    requires Typed(rows) && job in CaseJobs(k, rows, order)
    ensures entity in order && job in OneCaseJobs(k, rows, entity)
  {
    entity := Last(order);
    if job in CaseJobs(k, rows, Init(order)) {
      entity := CaseJobIsOnes(k, rows, Init(order), job);
    }
  }

  lemma {:induction false} OneCaseJobIsStage(k: Context, rows: seq<Row>, entity: string, job: Job)
    requires Typed(rows) && job in OneCaseJobs(k, rows, entity)
    ensures job.key.owner == Case(entity)
    ensures FirstCase(rows, entity).Some? && CasePlan(k, entity, FirstCase(rows, entity).value).Some?
    ensures job in StageJobs(k, Exchanges(rows), CasePlan(k, entity, FirstCase(rows, entity).value).value)
  {
    StageKeys(k, Exchanges(rows), CasePlan(k, entity, FirstCase(rows, entity).value).value);
  }

  lemma {:induction false} CaseJobIsStage(k: Context, rows: seq<Row>, order: seq<string>, job: Job)
    requires Typed(rows) && job in CaseJobs(k, rows, order)
    ensures job.key.owner.Case? && job.key.owner.id in order
    ensures var entity := job.key.owner.id;
      && FirstCase(rows, entity).Some? && CasePlan(k, entity, FirstCase(rows, entity).value).Some?
      && job in StageJobs(k, Exchanges(rows), CasePlan(k, entity, FirstCase(rows, entity).value).value)
  {
    var entity := CaseJobIsOnes(k, rows, order, job);
    OneCaseJobIsStage(k, rows, entity, job);
  }

  lemma {:induction false} OnesAreCaseJobs(k: Context, rows: seq<Row>, order: seq<string>, entity: string)
    requires Typed(rows) && entity in order
    ensures forall job :: job in OneCaseJobs(k, rows, entity) ==> job in CaseJobs(k, rows, order)
  {
    if entity != Last(order) {
      assert order == Init(order) + [Last(order)];
      OnesAreCaseJobs(k, rows, Init(order), entity);
    }
  }

  /** R3 waits for the next exchange close after R2's response. */
  predicate RepeatReady(k: Context, second: Option<Exchange>, ready: int) {
    && second.Some? && second.value.source.responseAt.Some?
    && RepeatAfter(k, second.value.source.responseAt.value) == Some(ready)
  }

  /**
   A case's jobs follow its first record: R1 asks for the history from the first observation on and
   expires at the decision; R2 and R3 ask for history and horizon, R2 once the last horizon session has
   closed, R3 after the next close that follows R2's response, until recovery ends.
   */
  lemma {:induction false} CaseJobsAsk(k: Context, rows: seq<Row>, m: Manifest, job: Job)
    requires Typed(rows) && |m.sessions| == WINDOW_SESSIONS && Jobs(k, rows, m).Some?
    requires job in Jobs(k, rows, m).value && job.key.owner.Case?
    ensures var first, pin := FirstCase(rows, job.key.owner.id), Pin(Exchanges(rows), job.key.owner);
      && first.Some? && var r, a := first.value, first.value.admission;
      && a.membership == Admitted && a.symbolValid && a.dates.Some? && a.decisionCutoff.Some?
      && var history, horizon := a.dates.value.history, a.dates.value.horizon;
      && horizon != [] && DayOf(k.days, Last(horizon)).fact.Trading?
      && job.symbol == r.symbol && job.conid == pin && !job.schedule
      && (job.key.stage == R1 || job.key.stage == R2 || job.key.stage == R3)
      && (job.key.stage == R1 ==>
            job.dates == history && job.ready == r.firstObservedAt && job.deadline == a.decisionCutoff.value)
      && (job.key.stage != R1 ==>
            job.deadline == k.deadline && forall d :: d in job.dates <==> d in history || d in horizon)
      && (job.key.stage == R2 ==> job.ready == DayOf(k.days, Last(horizon)).fact.closesAt)
      && (job.key.stage == R3 ==>
            exists p :: RepeatReady(k, StagesOf(k, Exchanges(rows), p).second, job.ready)
              && Some(p) == CasePlan(k, job.key.owner.id, r))
  {
    BenchmarkJobsAreBenchmark(k, rows, m, job);
    CaseJobIsStage(k, rows, CaseOrder(rows), job);
    var r := FirstCase(rows, job.key.owner.id).value;
    var plan := CasePlan(k, job.key.owner.id, r).value;
    Sorting.SortedSetKeeps(r.admission.dates.value.history + r.admission.dates.value.horizon);
    StageAsks(k, Exchanges(rows), plan, job);
  }

  /** A job that is not the benchmark's is a case's. */
  lemma {:induction false} BenchmarkJobsAreBenchmark(k: Context, rows: seq<Row>, m: Manifest, job: Job)
    requires Typed(rows) && |m.sessions| == WINDOW_SESSIONS && Jobs(k, rows, m).Some?
    requires job in Jobs(k, rows, m).value
    ensures job.key.owner.Case? <==> job in CaseJobs(k, rows, CaseOrder(rows))
  {
    var plan, conid := BenchmarkPlan(k, m).value, Pin(Exchanges(rows), Benchmark);
    if job in CaseJobs(k, rows, CaseOrder(rows)) {
      CaseJobIsStage(k, rows, CaseOrder(rows), job);
    }
    StageKeys(k, Exchanges(rows), plan);
    ScheduleAsks(k, m, conid, plan.history, WINDOW_SESSIONS);
  }

  lemma {:induction false} StageAsks(k: Context, xs: seq<Exchange>, p: Plan, job: Job)
    requires job in StageJobs(k, xs, p)
    ensures job.key.owner == p.owner && job.symbol == p.symbol && job.conid == Pin(xs, p.owner) && !job.schedule
    ensures job.key.stage == R1 || job.key.stage == R2 || job.key.stage == R3
    ensures job.key.stage == R1 ==> job.dates == p.history && job.ready == p.observedAt && job.deadline == p.cutoff
    ensures job.key.stage != R1 ==> job.dates == p.full && job.deadline == k.deadline
    ensures job.key.stage == R2 ==> job.ready == p.horizonClose
    ensures job.key.stage == R3 ==> RepeatReady(k, StagesOf(k, xs, p).second, job.ready)
  {
    SecondIsAnswered(k, xs, p);
  }

  lemma {:induction false} SecondIsAnswered(k: Context, xs: seq<Exchange>, p: Plan)
    ensures var s := StagesOf(k, xs, p);
      s.second.Some? ==> s.second.value.source.responseAt.Some?
  {
    var s := StagesOf(k, xs, p);
    if s.second.Some? {
      StagesBindExactly(k, xs, p);
      UsableExactlyWhen(k.zone, k.days, s.second.value);
    }
  }

  /** Every admitted case with a valid symbol and dates is asked for: its R1 and its R2 are among the jobs. */
  lemma {:induction false} PlannedCasesAreAsked(k: Context, rows: seq<Row>, m: Manifest, entity: string)
    requires Typed(rows) && |m.sessions| == WINDOW_SESSIONS && Jobs(k, rows, m).Some?
    requires FirstCase(rows, entity).Some?
    requires var a := FirstCase(rows, entity).value.admission;
      && a.membership == Admitted && a.symbolValid && a.dates.Some? && a.decisionCutoff.Some?
      && a.dates.value.horizon != [] && DayOf(k.days, Last(a.dates.value.horizon)).fact.Trading?
    ensures exists job :: job in Jobs(k, rows, m).value && job.key == JobKey(Case(entity), R1)
    ensures exists job :: job in Jobs(k, rows, m).value && job.key == JobKey(Case(entity), R2)
  {
    CasesAreKnown(rows, entity);
    OnesAreCaseJobs(k, rows, CaseOrder(rows), entity);
    var plan := CasePlan(k, entity, FirstCase(rows, entity).value).value;
    var stages := StageJobs(k, Exchanges(rows), plan);
    assert stages[0] in stages && stages[1] in stages;
  }

  /** The benchmark's history is every open day from the earliest history to the first session. */
  lemma {:induction false} BenchmarkHistoryIsOpenDays(days: Days, from: int, before: int)
    ensures forall d :: d in BenchmarkHistory(days, from, before) <==>
      from <= d < before && DayOf(days, d).fact.Trading?
    decreases before - from
  {
    if from < before {
      BenchmarkHistoryIsOpenDays(days, from + 1, before);
    }
  }

  lemma {:induction false} ScheduleAsks(k: Context, m: Manifest, conid: Option<int>, history: seq<int>, n: nat)
    requires |m.sessions| == WINDOW_SESSIONS && n <= WINDOW_SESSIONS
    ensures var jobs := ScheduleJobs(k, m, conid, history, n);
      && |jobs| == n
      && forall i :: 0 <= i < n ==>
           && jobs[i].key == JobKey(Benchmark, ScheduleThrough(m.sessions[i].day))
           && jobs[i].symbol == "SPY" && jobs[i].conid == conid && jobs[i].schedule && jobs[i].deadline == k.deadline
           && jobs[i].dates == history + DaysOf(m.sessions)[..i + 1]
           && (m.sessions[i].fact.Trading? ==> jobs[i].ready == m.sessions[i].fact.closesAt)
  {
    if n > 0 {
      ScheduleAsks(k, m, conid, history, n - 1);
    }
  }

  /** The last session whose dates a benchmark job asks for, counted from zero; R1 asks for none. */
  predicate AsksThrough(m: Manifest, job: Job, i: int)
    requires |m.sessions| == WINDOW_SESSIONS
  {
    match job.key.stage
    case R1 => i == -1
    case R2 => i == 18
    case R3 => i == 18
    case CheckpointW10 => i == 9
    case ScheduleThrough(day) => 0 <= i < WINDOW_SESSIONS && m.sessions[i].day == day
  }

  /** The dates of a benchmark job: open days from the earliest history on, and sessions through position `i`. */
  predicate AsksBenchmarkDates(k: Context, m: Manifest, job: Job, i: int)
    requires |m.sessions| == WINDOW_SESSIONS && -1 <= i < WINDOW_SESSIONS
  {
    && (forall d :: d in job.dates ==>
          || (m.earliestHistory <= d < m.sessions[0].day && DayOf(k.days, d).fact.Trading?)
          || (exists n :: 0 <= n <= i && m.sessions[n].day == d))
    && (forall d :: m.earliestHistory <= d < m.sessions[0].day && DayOf(k.days, d).fact.Trading? ==> d in job.dates)
    && (forall n :: 0 <= n <= i ==> m.sessions[n].day in job.dates)
  }

  lemma {:induction false} DatesAreBenchmarks(k: Context, m: Manifest, job: Job, i: int)
    requires |m.sessions| == WINDOW_SESSIONS && -1 <= i < WINDOW_SESSIONS
    requires var history := BenchmarkHistory(k.days, m.earliestHistory, m.sessions[0].day);
      forall d :: d in job.dates <==> d in history + DaysOf(m.sessions)[..i + 1]
    ensures AsksBenchmarkDates(k, m, job, i)
  {
    BenchmarkHistoryIsOpenDays(k.days, m.earliestHistory, m.sessions[0].day);
    SessionsThrough(m, i, DaysOf(m.sessions)[..i + 1]);
  }

  lemma {:induction false} BenchmarkStageAsks(k: Context, xs: seq<Exchange>, m: Manifest, job: Job) returns (i: int)
    requires |m.sessions| == WINDOW_SESSIONS && BenchmarkPlan(k, m).Some?
    requires job in StageJobs(k, xs, BenchmarkPlan(k, m).value)
    requires DayOf(k.days, m.sessions[18].day) == m.sessions[18] && m.sessions[18].fact.Trading?
    ensures -1 <= i < WINDOW_SESSIONS && AsksThrough(m, job, i) && AsksBenchmarkDates(k, m, job, i)
    ensures job.symbol == "SPY" && job.conid == Pin(xs, Benchmark) && !job.schedule
    ensures job.key.stage == R1 ==> job.ready == m.boundary && job.deadline == k.zone.at(m.sessions[0].day, 33_600)
    ensures job.key.stage != R1 ==> job.deadline == k.deadline
    ensures job.key.stage == R2 ==> job.ready == m.sessions[18].fact.closesAt
  {
    var plan, days := BenchmarkPlan(k, m).value, DaysOf(m.sessions);
    i := if job.key.stage == R1 then -1 else 18;
    StageAsks(k, xs, plan, job);
    Sorting.SortedSetKeeps(plan.history + days[..19]);
    assert days[..18 + 1] == days[..19] && plan.history + days[..0] == plan.history;
    DatesAreBenchmarks(k, m, job, i);
  }

  /** The window's sessions are open days of the calendar. */
  predicate OpenSessions(k: Context, m: Manifest)
    requires |m.sessions| == WINDOW_SESSIONS
  {
    forall n :: 0 <= n < WINDOW_SESSIONS ==>
      m.sessions[n].fact.Trading? && DayOf(k.days, m.sessions[n].day) == m.sessions[n]
  }

  /** What a checkpoint or schedule job asks for: everything through a session that has closed when it is ready. */
  predicate AsksOnceClosed(k: Context, m: Manifest, conid: Option<int>, job: Job, i: int)
    requires |m.sessions| == WINDOW_SESSIONS
  {
    && 0 <= i < WINDOW_SESSIONS && AsksThrough(m, job, i) && AsksBenchmarkDates(k, m, job, i)
    && job.symbol == "SPY" && job.conid == conid && job.deadline == k.deadline
    && m.sessions[i].fact.Trading? && job.ready == m.sessions[i].fact.closesAt
  }

  lemma {:induction false} CheckpointAsks(k: Context, m: Manifest, conid: Option<int>)
    requires |m.sessions| == WINDOW_SESSIONS && OpenSessions(k, m)
    ensures var job := CheckpointJob(k, m, conid, BenchmarkHistory(k.days, m.earliestHistory, m.sessions[0].day));
      AsksOnceClosed(k, m, conid, job, 9) && job.key.stage == CheckpointW10 && !job.schedule
  {
    DatesAreBenchmarks(
      k, m, CheckpointJob(k, m, conid, BenchmarkHistory(k.days, m.earliestHistory, m.sessions[0].day)), 9);
  }

  lemma {:induction false} ScheduleAsksOnceClosed(k: Context, m: Manifest, conid: Option<int>, job: Job)
    returns (i: int)
    requires |m.sessions| == WINDOW_SESSIONS && OpenSessions(k, m)
    requires var history := BenchmarkHistory(k.days, m.earliestHistory, m.sessions[0].day);
      job in ScheduleJobs(k, m, conid, history, WINDOW_SESSIONS)
    ensures AsksOnceClosed(k, m, conid, job, i) && job.key.stage.ScheduleThrough? && job.schedule
  {
    var history := BenchmarkHistory(k.days, m.earliestHistory, m.sessions[0].day);
    ScheduleAsks(k, m, conid, history, WINDOW_SESSIONS);
    i :| 0 <= i < WINDOW_SESSIONS && ScheduleJobs(k, m, conid, history, WINDOW_SESSIONS)[i] == job;
    DatesAreBenchmarks(k, m, job, i);
  }

  /**
   A benchmark job asks, for SPY and under its pin, for every open day from the earliest history on and
   for the window's sessions through one that has closed when the job is ready.
   */
  lemma {:induction false} BenchmarkJobsAsk(k: Context, rows: seq<Row>, m: Manifest, job: Job) returns (i: int)
    requires Typed(rows) && |m.sessions| == WINDOW_SESSIONS && Jobs(k, rows, m).Some?
    requires job in Jobs(k, rows, m).value && job.key.owner == Benchmark
    requires OpenSessions(k, m)
    ensures -1 <= i < WINDOW_SESSIONS && AsksThrough(m, job, i) && AsksBenchmarkDates(k, m, job, i)
    ensures job.symbol == "SPY" && job.conid == Pin(Exchanges(rows), Benchmark)
    ensures job.schedule <==> job.key.stage.ScheduleThrough?
    ensures job.key.stage == R1 ==> job.ready == m.boundary && job.deadline == k.zone.at(m.sessions[0].day, 33_600)
    ensures job.key.stage != R1 ==> job.deadline == k.deadline
    ensures i >= 0 && job.key.stage != R3 ==> job.ready == m.sessions[i].fact.closesAt
  {
    var xs, plan := Exchanges(rows), BenchmarkPlan(k, m).value;
    var conid := Pin(xs, Benchmark);
    BenchmarkJobsAreBenchmark(k, rows, m, job);
    if job in StageJobs(k, xs, plan) {
      i := BenchmarkStageAsks(k, xs, m, job);
    } else if job == CheckpointJob(k, m, conid, plan.history) {
      i := 9;
      CheckpointAsks(k, m, conid);
    } else {
      i := ScheduleAsksOnceClosed(k, m, conid, job);
    }
  }

  lemma {:induction false} SessionsThrough(m: Manifest, i: int, days: seq<int>)
    requires |m.sessions| == WINDOW_SESSIONS && -1 <= i < WINDOW_SESSIONS && days == DaysOf(m.sessions)[..i + 1]
    ensures forall d :: d in days <==> exists n :: 0 <= n <= i && m.sessions[n].day == d
  {
    forall d ensures d in days <==> exists n :: 0 <= n <= i && m.sessions[n].day == d {
      if exists n :: 0 <= n <= i && m.sessions[n].day == d {
        var n :| 0 <= n <= i && m.sessions[n].day == d;
        assert days[n] == d;
      }
    }
  }

  predicate DistinctKeys(jobs: seq<Job>) {
    forall i, j :: 0 <= i < j < |jobs| ==> jobs[i].key != jobs[j].key
  }

  /** The job is one of this case's stages. */
  predicate OfCase(jobs: seq<Job>, order: seq<string>) {
    forall i :: 0 <= i < |jobs| ==> jobs[i].key.owner.Case? && jobs[i].key.owner.id in order
  }

  lemma {:induction false} StageKeys(k: Context, xs: seq<Exchange>, p: Plan)
    ensures DistinctKeys(StageJobs(k, xs, p))
    ensures forall i :: 0 <= i < |StageJobs(k, xs, p)| ==>
      StageJobs(k, xs, p)[i].key.owner == p.owner && StageJobs(k, xs, p)[i].key.stage in {R1, R2, R3}
  {
  }

  lemma {:induction false} OneCaseKeys(k: Context, rows: seq<Row>, entity: string)
    requires Typed(rows)
    ensures DistinctKeys(OneCaseJobs(k, rows, entity))
    ensures forall i :: 0 <= i < |OneCaseJobs(k, rows, entity)| ==>
      OneCaseJobs(k, rows, entity)[i].key.owner == Case(entity)
  {
    var record := FirstCase(rows, entity);
    if record.Some? && CasePlan(k, entity, record.value).Some? {
      StageKeys(k, Exchanges(rows), CasePlan(k, entity, record.value).value);
    }
  }

  lemma {:induction false} CaseKeys(k: Context, rows: seq<Row>, order: seq<string>)
    requires Typed(rows) && forall i, j :: 0 <= i < j < |order| ==> order[i] != order[j]
    ensures DistinctKeys(CaseJobs(k, rows, order)) && OfCase(CaseJobs(k, rows, order), order)
  {
    if order != [] {
      var entity := Last(order);
      CaseKeys(k, rows, Init(order));
      OneCaseKeys(k, rows, entity);
      assert order == Init(order) + [entity];
      assert entity !in Init(order);
      JoinKeys(CaseJobs(k, rows, Init(order)), OneCaseJobs(k, rows, entity));
    }
  }

  lemma {:induction false} ScheduleKeys(k: Context, m: Manifest, conid: Option<int>, history: seq<int>, n: nat)
    requires |m.sessions| == WINDOW_SESSIONS && n <= WINDOW_SESSIONS
    requires forall i, j :: 0 <= i < j < WINDOW_SESSIONS ==> m.sessions[i].day < m.sessions[j].day
    ensures var jobs := ScheduleJobs(k, m, conid, history, n);
      |jobs| == n && DistinctKeys(jobs)
      && forall i :: 0 <= i < n ==> jobs[i].key == JobKey(Benchmark, ScheduleThrough(m.sessions[i].day))
  {
    if n > 0 {
      ScheduleKeys(k, m, conid, history, n - 1);
    }
  }

  lemma {:induction false} JoinKeys(a: seq<Job>, b: seq<Job>)
    requires DistinctKeys(a) && DistinctKeys(b)
    requires forall i, j :: 0 <= i < |a| && 0 <= j < |b| ==> a[i].key != b[j].key
    ensures DistinctKeys(a + b)
  {
  }

  lemma {:induction false} JoinFour(cases: seq<Job>, stages: seq<Job>, checkpoint: Job, schedules: seq<Job>)
    requires DistinctKeys(cases) && DistinctKeys(stages) && DistinctKeys(schedules)
    requires forall i :: 0 <= i < |cases| ==> cases[i].key.owner.Case?
    requires forall i :: 0 <= i < |stages| ==> stages[i].key.owner == Benchmark && stages[i].key.stage in {R1, R2, R3}
    requires checkpoint.key == JobKey(Benchmark, CheckpointW10)
    requires forall i :: 0 <= i < |schedules| ==>
      schedules[i].key.owner == Benchmark && schedules[i].key.stage.ScheduleThrough?
    ensures DistinctKeys(cases + stages + [checkpoint] + schedules)
  {
    JoinKeys(cases, stages);
    JoinKeys(cases + stages, [checkpoint]);
    JoinKeys(cases + stages + [checkpoint], schedules);
  }

  /** No two jobs share a key, so counting attempts and successes by key never mixes jobs. */
  lemma {:induction false} JobKeysAreDistinct(
    z: Zone, v: Version, m: Manifest, provenanceOk: bool, k: Context, rows: seq<Row>)
    requires Valid(z) && ValidManifest(z, v, m, provenanceOk) && Typed(rows)
    ensures |m.sessions| == WINDOW_SESSIONS
    ensures Jobs(k, rows, m).Some? ==> DistinctKeys(Jobs(k, rows, m).value)
  {
    ManifestSessions(z, v, m, provenanceOk);
    if Jobs(k, rows, m).Some? {
      SessionJobsAreDistinct(k, rows, m);
    }
  }

  lemma {:induction false} SessionJobsAreDistinct(k: Context, rows: seq<Row>, m: Manifest)
    requires Typed(rows) && |m.sessions| == WINDOW_SESSIONS && Jobs(k, rows, m).Some?
    requires forall i, j :: 0 <= i < j < WINDOW_SESSIONS ==> m.sessions[i].day < m.sessions[j].day
    ensures DistinctKeys(Jobs(k, rows, m).value)
  {
    var plan, conid := BenchmarkPlan(k, m).value, Pin(Exchanges(rows), Benchmark);
    CasesAreKnown(rows, "");
    CaseKeys(k, rows, CaseOrder(rows));
    StageKeys(k, Exchanges(rows), plan);
    ScheduleKeys(k, m, conid, plan.history, WINDOW_SESSIONS);
    JoinFour(
      CaseJobs(k, rows, CaseOrder(rows)), StageJobs(k, Exchanges(rows), plan), CheckpointJob(k, m, conid, plan.history),
      ScheduleJobs(k, m, conid, plan.history, WINDOW_SESSIONS));
  }

  /** A case admitted with dates under the frozen version always has a plan once its symbol is valid. */
  lemma {:induction false} DatedCasesHavePlans(
    z: Zone, v: Version, k: Context, entity: string, record: CaseRecord, signal: int, entry: int)
    requires k.days == v.days
    requires record.admission.membership == Admitted && record.admission.symbolValid
    requires record.admission.decisionCutoff.Some?
    requires record.admission.dates.Some? && record.admission.dates == DatesFor(z, v, signal, entry)
    ensures CasePlan(k, entity, record).Some?
  {
    var horizon := BindResult(v, entry, 10).value.sessions;
    SessionsAreOpenDays(v.days, entry, 10);
    assert DaysOf(horizon)[9] == horizon[9].day;
  }
}
