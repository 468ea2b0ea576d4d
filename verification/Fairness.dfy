/**
 Whole runs of the acquisition worker: the spacing of attempts and the two-sided share of
 the benchmark.
 */
module Fairness {
  import opened Prelude
  import opened LocalTime
  import opened Receipts
  import opened Evidence
  import opened Planner

  /** What the worker saw when it planned an attempt: the journal read, the jobs and the clock. */
  datatype Planning = Planning(seen: seq<Row>, jobs: seq<Job>, now: int)

  /**
   Every attempt in the journal is the request planned from a journal that already held all
   earlier attempts, recorded no earlier than it was planned; the network lock is held throughout.
   */
  ghost predicate PlannedRun(s: Setting, rows: seq<Row>, plans: seq<Planning>) {
    && Typed(rows)
    && |plans| == |Attempts(rows)|
    && forall k :: 0 <= k < |plans| ==> PlannedAt(s, rows, plans[k], k)
  }

  ghost predicate PlannedAt(s: Setting, rows: seq<Row>, p: Planning, k: nat)
    requires Typed(rows) && k < |Attempts(rows)|
  {
    && Typed(p.seen)
    && p.seen != []
    && p.seen <= rows
    && Attempts(p.seen) == Attempts(rows)[..k]
    && Next(s, p.seen, p.jobs, p.now) == Some(Attempts(rows)[k].intent)
    && p.now <= Attempts(rows)[k].at
  }

  /** One more record leaves the plans of the attempts before it as they were. */
  lemma {:induction false} PlansKept(s: Setting, rows: seq<Row>, row: Row, plans: seq<Planning>)
    requires Typed(rows) && TypedRow(row) && PlannedRun(s, rows, plans)
    ensures Typed(rows + [row]) && Attempts(rows + [row]) == Attempts(rows) + AttemptAt(row)
    ensures forall k :: 0 <= k < |plans| ==> PlannedAt(s, rows + [row], plans[k], k)
  {
    var next := rows + [row];
    assert Init(next) == rows && Last(next) == row;
    forall k | 0 <= k < |plans| ensures PlannedAt(s, next, plans[k], k) {
      assert PlannedAt(s, rows, plans[k], k);
      assert Attempts(next)[..k] == Attempts(rows)[..k];
    }
  }

  predicate SomeEligible(s: Setting, p: Planning, benchmark: bool)
    requires Typed(p.seen)
  {
    exists job :: job in p.jobs && IsBenchmark(job.key) == benchmark
      && Eligible(s, Attempts(p.seen), Exchanges(p.seen), p.now, job)
  }

  /** The queue's head, whose symbol and contract the request is for, is a benchmark job. */
  predicate ChoseBenchmark(s: Setting, p: Planning)
    requires Typed(p.seen) && p.seen != []
  {
    var queue := Queue(s, p.seen, p.jobs, p.now);
    queue != [] && IsBenchmark(queue[0].job.key)
  }

  /** Consecutive attempts keep the minimum gap and the doubling, capped infrastructure backoff. */
  lemma {:induction false} AttemptsAreSpaced(s: Setting, rows: seq<Row>, plans: seq<Planning>, k: nat)
    requires PlannedRun(s, rows, plans) && 0 < k < |plans|
    ensures Attempts(rows)[k].at - Attempts(rows)[k - 1].at >= 300 * SECOND
    ensures Typed(plans[k].seen)
    ensures var failures := Trailing(Attempts(rows)[..k], Exchanges(plans[k].seen));
      failures > 0 ==>
        Attempts(rows)[k].at - Attempts(rows)[k - 1].at >= Min(1_800, 300 * Pow2(Min(failures - 1, 10))) * SECOND
  {
    var p := plans[k];
    assert PlannedAt(s, rows, p, k);
    RequestWaits(s, p.seen, p.jobs, p.now);
    GapCarries(Attempts(rows), Attempts(p.seen), Exchanges(p.seen), p.now, k);
  }

  /** What held when the attempt was planned holds of the attempt recorded for it. */
  lemma {:induction false} GapCarries(attempts: seq<Attempt>, seen: seq<Attempt>, xs: seq<Exchange>, now: int, k: nat)
    requires 0 < k < |attempts| && seen == attempts[..k] && now <= attempts[k].at
    requires now - Last(seen).at >= MINIMUM_GAP
    requires Trailing(seen, xs) > 0 ==> now - Last(seen).at >= Backoff(Trailing(seen, xs), INFRASTRUCTURE_CAP) * SECOND
    ensures attempts[k].at - attempts[k - 1].at >= MINIMUM_GAP
    ensures Trailing(attempts[..k], xs) > 0 ==>
      attempts[k].at - attempts[k - 1].at >= Backoff(Trailing(attempts[..k], xs), INFRASTRUCTURE_CAP) * SECOND
  {
    assert Last(seen) == attempts[k - 1];
  }

  lemma {:induction false} RequestWaits(s: Setting, rows: seq<Row>, jobs: seq<Job>, now: int)
    requires Typed(rows) && rows != [] && Next(s, rows, jobs, now).Some? && Attempts(rows) != []
    ensures now - Last(Attempts(rows)).at >= MINIMUM_GAP
    ensures var failures := Trailing(Attempts(rows), Exchanges(rows));
      failures > 0 ==> now - Last(Attempts(rows)).at >= Backoff(failures, INFRASTRUCTURE_CAP) * SECOND
  {
    var at := RetryAt(Attempts(rows), Exchanges(rows));
    assert at.Some? ==> now >= at.value;
  }

  /** The attempts of a run are strictly ordered in time. */
  lemma {:induction false} AttemptsIncrease(s: Setting, rows: seq<Row>, plans: seq<Planning>, i: nat, k: nat)
    requires PlannedRun(s, rows, plans) && i < k < |plans|
    ensures Attempts(rows)[k].at - Attempts(rows)[i].at >= (k - i) * (300 * SECOND)
    decreases k
  {
    NeighboursIncrease(s, rows, plans, k);
    if i < k - 1 {
      AttemptsIncrease(s, rows, plans, i, k - 1);
    }
  }

  lemma {:induction false} NeighboursIncrease(s: Setting, rows: seq<Row>, plans: seq<Planning>, k: nat)
    requires PlannedRun(s, rows, plans) && 0 < k < |plans|
    ensures Attempts(rows)[k].at - Attempts(rows)[k - 1].at >= MINIMUM_GAP
  {
    AttemptsAreSpaced(s, rows, plans, k);
  }

  lemma {:induction false} AttemptsAreChronological(s: Setting, rows: seq<Row>, plans: seq<Planning>, k: nat)
    requires PlannedRun(s, rows, plans) && k <= |plans|
    ensures Chronological(Attempts(rows)[..k])
  {
    forall i, j | 0 <= i < j < k ensures Attempts(rows)[i].at <= Attempts(rows)[j].at {
      AttemptsIncrease(s, rows, plans, i, j);
    }
  }

  /** What a request names a key for: a job that is ready and that nothing read has delivered. */
  predicate OpenJob(s: Setting, p: Planning, job: Job, at: int)
    requires Typed(p.seen)
  {
    && job in p.jobs && job.ready <= at
    && forall x :: x in Exchanges(p.seen) ==>
         !Delivers(s.context, x, job.key, job.dates, job.ready, job.conid, job.schedule)
  }

  /**
   Over any run, an attempt is made only in an open window, and every job it names is ready, unfinished,
   and for the symbol, contract and kind of data that the attempt asks for.
   */
  lemma {:induction false} AttemptsServeOpenJobs(s: Setting, rows: seq<Row>, plans: seq<Planning>, k: nat, key: JobKey)
    requires PlannedRun(s, rows, plans) && k < |plans|
    ensures Typed(plans[k].seen) && s.boundary <= plans[k].now < s.context.deadline
    ensures !(28_800 <= s.context.zone.localTime(plans[k].now) < 64_800)
    ensures var r := Attempts(rows)[k].intent;
      key in r.jobs ==>
        exists job :: OpenJob(s, plans[k], job, Attempts(rows)[k].at) && job.key == key
          && r.symbol == job.symbol && r.expectedConid == job.conid && r.schedule == job.schedule
          && forall d :: d in job.dates ==> d in r.requiredDates
  {
    var p, r := plans[k], Attempts(rows)[k].intent;
    assert PlannedAt(s, rows, p, k);
    IdleExactlyWhen(s, p.seen, p.jobs, p.now);
    RequestFitsItsJobs(s, p.seen, p.jobs, p.now, key);
    if key in r.jobs {
      var job :| job in p.jobs && job.key == key
        && r.symbol == job.symbol && r.expectedConid == job.conid && r.schedule == job.schedule
        && Eligible(s, Attempts(p.seen), Exchanges(p.seen), p.now, job)
        && forall d :: d in job.dates ==> d in r.requiredDates;
      AttemptsAreChronological(s, rows, plans, k);
      EligibleExactlyWhen(s, Attempts(p.seen), Exchanges(p.seen), p.now, job);
      assert OpenJob(s, p, job, Attempts(rows)[k].at);
    }
  }

  /**
   After `n` attempts for a job that were answered about content, its next attempt comes at least
   min(21600, 300 * 2^min(n - 1, 10)) seconds after each of them.
   */
  lemma {:induction false} ContentRetriesBackOff(
    s: Setting, rows: seq<Row>, plans: seq<Planning>, i: nat, k: nat, key: JobKey)
    requires PlannedRun(s, rows, plans) && i < k < |plans|
    requires key in Attempts(rows)[i].intent.jobs && key in Attempts(rows)[k].intent.jobs
    ensures Typed(plans[k].seen)
    ensures var xs := Exchanges(plans[k].seen);
      var n := |ContentTries(Attempts(rows)[..k], xs, key)|;
      !InfrastructureFailure(ResponseTo(xs, Attempts(rows)[i].sha)) ==>
        && n > 0
        && Attempts(rows)[k].at - Attempts(rows)[i].at >= Min(21_600, 300 * Pow2(Min(n - 1, 10))) * SECOND
  {
    var p := plans[k];
    assert PlannedAt(s, rows, p, k);
    var attempts, xs := Attempts(p.seen), Exchanges(p.seen);
    RequestFitsItsJobs(s, p.seen, p.jobs, p.now, key);
    var job :| job in p.jobs && job.key == key && Eligible(s, attempts, xs, p.now, job);
    AttemptsAreChronological(s, rows, plans, k);
    EligibleExactlyWhen(s, attempts, xs, p.now, job);
    if !InfrastructureFailure(ResponseTo(xs, Attempts(rows)[i].sha)) {
      assert attempts[i] == Attempts(rows)[i];
      TriedWaits(attempts, xs, key, p.now, i);
    }
  }

  /** An attempt answered about content is among the tries, so the whole wait has passed since it. */
  lemma {:induction false} TriedWaits(attempts: seq<Attempt>, xs: seq<Exchange>, key: JobKey, now: int, i: nat)
    requires i < |attempts| && key in attempts[i].intent.jobs
    requires !InfrastructureFailure(ResponseTo(xs, attempts[i].sha))
    requires var tries := ContentTries(attempts, xs, key);
      forall j :: j in tries ==> now - attempts[j].at >= ContentWait(|tries|)
    ensures var n := |ContentTries(attempts, xs, key)|;
      n > 0 && now - attempts[i].at >= Min(21_600, 300 * Pow2(Min(n - 1, 10))) * SECOND
  {
    assert i in ContentTries(attempts, xs, key);
  }

  /** The class that has the turn is served whenever it has eligible work. */
  lemma {:induction false} HeadClass(s: Setting, p: Planning)
    requires Typed(p.seen) && p.seen != [] && Queue(s, p.seen, p.jobs, p.now) != []
    ensures var recent := RecentBenchmark(Attempts(p.seen));
      && (!recent && SomeEligible(s, p, true) ==> ChoseBenchmark(s, p))
      && (recent && SomeEligible(s, p, false) ==> !ChoseBenchmark(s, p))
  {
    var recent, queue := RecentBenchmark(Attempts(p.seen)), Queue(s, p.seen, p.jobs, p.now);
    QueueHead(s, p.seen, p.jobs, p.now);
    if SomeEligible(s, p, !recent) {
      var job :| job in p.jobs && IsBenchmark(job.key) == !recent
        && Eligible(s, Attempts(p.seen), Exchanges(p.seen), p.now, job);
      var c := Candidate(job, |AttemptsFor(Attempts(p.seen), job.key)|);
      assert c in queue;
      assert Precedes(s, p.now, recent, queue[0], c);
    }
  }

  lemma {:induction false} ChosenIsCarried(s: Setting, rows: seq<Row>, plans: seq<Planning>, k: nat)
    requires PlannedRun(s, rows, plans) && k < |plans|
    ensures Queue(s, plans[k].seen, plans[k].jobs, plans[k].now) != []
    ensures ChoseBenchmark(s, plans[k]) ==> CarriesBenchmark(Attempts(rows)[k])
  {
    var p := plans[k];
    assert PlannedAt(s, rows, p, k);
    var queue, r := Queue(s, p.seen, p.jobs, p.now), Attempts(rows)[k].intent;
    QueueHead(s, p.seen, p.jobs, p.now);
    assert queue[0] in queue;
    RequestNamesServedJobs(s, p.seen, p.jobs, p.now, queue[0].job.key);
    assert Served(s, p.seen, p.jobs, p.now, queue[0].job);
    var i :| 0 <= i < |r.jobs| && r.jobs[i] == queue[0].job.key;
  }

  /**
   While candidate work is eligible the benchmark is chosen at most once in five attempts: none of
   the four attempts before such a choice carried any benchmark job.
   */
  lemma {:induction false} BenchmarkTakesOneInFive(s: Setting, rows: seq<Row>, plans: seq<Planning>, i: nat, k: nat)
    requires PlannedRun(s, rows, plans) && i < k < |plans|
    requires PlannedAt(s, rows, plans[k], k) && ChoseBenchmark(s, plans[k]) && SomeEligible(s, plans[k], false)
    requires CarriesBenchmark(Attempts(rows)[i])
    ensures k - i >= 5
  {
    var seen := Attempts(plans[k].seen);
    assert seen[i] == Attempts(rows)[i];
    ChosenIsCarried(s, rows, plans, k);
    HeadClass(s, plans[k]);
    assert k - i <= RESERVATION ==> RecentBenchmark(seen);
  }

  /** Two benchmark choices made while candidate work was eligible are at least five attempts apart. */
  lemma {:induction false} BenchmarkChoicesApart(s: Setting, rows: seq<Row>, plans: seq<Planning>, i: nat, k: nat)
    requires PlannedRun(s, rows, plans) && i < k < |plans|
    requires PlannedAt(s, rows, plans[i], i) && ChoseBenchmark(s, plans[i])
    requires PlannedAt(s, rows, plans[k], k) && ChoseBenchmark(s, plans[k]) && SomeEligible(s, plans[k], false)
    ensures k - i >= 5
  {
    ChosenIsCarried(s, rows, plans, i);
    BenchmarkTakesOneInFive(s, rows, plans, i, k);
  }

  /** Of five consecutive attempts, one carries a benchmark job if benchmark work was eligible at the last. */
  lemma {:induction false} BenchmarkIsNotStarved(s: Setting, rows: seq<Row>, plans: seq<Planning>, k: nat)
    requires PlannedRun(s, rows, plans) && RESERVATION <= k < |plans|
    requires PlannedAt(s, rows, plans[k], k) && SomeEligible(s, plans[k], true)
    ensures exists i :: k - RESERVATION <= i <= k && CarriesBenchmark(Attempts(rows)[i])
  {
    var seen := Attempts(plans[k].seen);
    ChosenIsCarried(s, rows, plans, k);
    HeadClass(s, plans[k]);
    if RecentBenchmark(seen) {
      var i :| 0 <= i < |seen| && |seen| - RESERVATION <= i && CarriesBenchmark(seen[i]);
      assert seen[i] == Attempts(rows)[i];
    } else {
      assert CarriesBenchmark(Attempts(rows)[k]);
    }
  }

  /** Within the class that is served, expired work waits for unexpired and retries wait for fresh work. */
  lemma {:induction false} HeadIsMostUrgent(s: Setting, p: Planning, job: Job)
    requires Typed(p.seen) && p.seen != [] && Queue(s, p.seen, p.jobs, p.now) != []
    requires job in p.jobs && Eligible(s, Attempts(p.seen), Exchanges(p.seen), p.now, job)
    requires IsBenchmark(job.key) == ChoseBenchmark(s, p)
    ensures var head := Queue(s, p.seen, p.jobs, p.now)[0];
      var previous := |AttemptsFor(Attempts(p.seen), job.key)|;
      && (head.job.deadline <= p.now ==> job.deadline <= p.now)
      && ((head.job.deadline <= p.now <==> job.deadline <= p.now) && head.previous > 0 ==> previous > 0)
      && ((head.job.deadline <= p.now <==> job.deadline <= p.now) && (head.previous > 0 <==> previous > 0) ==>
            head.job.deadline <= job.deadline
            && (head.job.deadline == job.deadline ==> head.job.ready <= job.ready))
  {
    var queue := Queue(s, p.seen, p.jobs, p.now);
    QueueHead(s, p.seen, p.jobs, p.now);
    var c := Candidate(job, |AttemptsFor(Attempts(p.seen), job.key)|);
    assert c in queue;
    assert Precedes(s, p.now, RecentBenchmark(Attempts(p.seen)), queue[0], c);
  }
}
