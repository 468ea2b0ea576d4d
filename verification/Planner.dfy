/**
 Which request the acquisition worker makes next: infrastructure backoff, per-job content
 backoff, the benchmark reservation and the merge of jobs that one request can serve.
 */
module Planner {
  import opened Prelude
  import opened LocalTime
  import opened Receipts
  import opened Evidence
  import Sorting
  import Journal

  const MINIMUM_GAP := 300 * SECOND
  const INFRASTRUCTURE_CAP := 1_800
  const CONTENT_CAP := 21_600
  const RESERVATION := 4

  /** `text` renders a job key; only its order is used. */
  datatype Setting = Setting(context: Context, boundary: int, text: JobKey -> string)

  // ---- infrastructure failures -----------------------------------------------------------------

  /** A missing response counts: the network lock rules out a second caller in flight. */
  predicate InfrastructureFailure(source: Option<Source>) {
    match source
    case None => true
    case Some(s) =>
      if s.cleanupErrors || !s.clockValid then true
      else
        match s.outcome
        case Received | EmptyResponse | ContractMissing | ContractAmbiguous | ContractNotSupported
          | PinnedNotReturned => false
        case BrokerError =>
          && s.errorCode != Some(200) && s.errorCode != Some(354)
          && s.errorCategory != "hmds_162_no_data" && s.errorCategory != "hmds_162_permissions"
        case OtherOutcome(_) => true
  }

  /** What counts as an answer about the content asked for: these outcomes, over a sound connection. */
  lemma {:induction false} ContentAnswerExactlyWhen(source: Option<Source>)
    ensures !InfrastructureFailure(source) <==>
      && source.Some?
      && var s := source.value;
      && s.clockValid && !s.cleanupErrors
      && (|| s.outcome in {
               Received, EmptyResponse, ContractMissing, ContractAmbiguous, ContractNotSupported, PinnedNotReturned}
          || (s.outcome == BrokerError
              && (s.errorCode in {Some(200), Some(354)}
                  || s.errorCategory in {"hmds_162_no_data", "hmds_162_permissions"})))
  {
  }

  function ResponseTo(xs: seq<Exchange>, sha: string): Option<Source> {
    if xs == [] then None
    else if xs[0].attemptSha == sha then Some(xs[0].source)
    else ResponseTo(xs[1..], sha)
  }

  predicate Failed(xs: seq<Exchange>, a: Attempt) {
    InfrastructureFailure(ResponseTo(xs, a.sha))
  }

  /** The length of the run of infrastructure failures at the end. */
  function Trailing(attempts: seq<Attempt>, xs: seq<Exchange>): (n: nat)
    ensures n <= |attempts|
  {
    if attempts == [] || !Failed(xs, Last(attempts)) then 0 else Trailing(Init(attempts), xs) + 1
  }

  /** The count is the longest all-failed suffix. */
  lemma {:induction false} TrailingIsLongestFailedSuffix(attempts: seq<Attempt>, xs: seq<Exchange>)
    ensures var n := Trailing(attempts, xs);
      && (forall i :: |attempts| - n <= i < |attempts| ==> Failed(xs, attempts[i]))
      && (n < |attempts| ==> !Failed(xs, attempts[|attempts| - n - 1]))
  {
    if attempts != [] && Failed(xs, Last(attempts)) {
      TrailingIsLongestFailedSuffix(Init(attempts), xs);
      forall i | |attempts| - Trailing(attempts, xs) <= i < |attempts| ensures Failed(xs, attempts[i]) {
        if i < |attempts| - 1 {
          assert attempts[i] == Init(attempts)[i];
        }
      }
    }
  }

  function Pow2(n: nat): (r: nat)
    ensures r >= 1
  {
    if n == 0 then 1 else 2 * Pow2(n - 1)
  }

  /** Seconds to wait after `n` consecutive failures: 300 doubling, capped. */
  function Backoff(n: nat, cap: int): int
    requires n > 0
  {
    Min(cap, 300 * Pow2(Min(n - 1, 10)))
  }

  function RetryAt(attempts: seq<Attempt>, xs: seq<Exchange>): Option<int> {
    var trailing := Trailing(attempts, xs);
    if trailing == 0 then None else Some(Last(attempts).at + Backoff(trailing, INFRASTRUCTURE_CAP) * SECOND)
  }

  method InfrastructureRetryAt(attempts: seq<Attempt>, xs: seq<Exchange>) returns (r: Option<int>)
    ensures r == RetryAt(attempts, xs)
  {
    var trailing := 0;
    var i := |attempts|;
    assert attempts[..i] == attempts;
    while i > 0
      invariant 0 <= i <= |attempts| && trailing == |attempts| - i
      invariant Trailing(attempts, xs) == trailing + Trailing(attempts[..i], xs)
    {
      assert Last(attempts[..i]) == attempts[i - 1] && Init(attempts[..i]) == attempts[..i - 1];
      if !Failed(xs, attempts[i - 1]) {
        break;
      }
      trailing := trailing + 1;
      i := i - 1;
    }
    if trailing == 0 {
      return None;
    }
    return Some(Last(attempts).at + Backoff(trailing, INFRASTRUCTURE_CAP) * SECOND);
  }

  lemma {:induction false} Pow2Grows(n: nat, k: nat)
    requires k <= n
    ensures Pow2(k) <= Pow2(n)
  {
    if k < n {
      Pow2Grows(n - 1, k);
    }
  }

  /** The infrastructure wait starts at 300 seconds, doubles, and stays at the cap once there. */
  lemma {:induction false} BackoffDoublesToCap(n: nat)
    requires n > 0
    ensures Backoff(1, INFRASTRUCTURE_CAP) == 300
    ensures Backoff(n + 1, INFRASTRUCTURE_CAP) == Min(INFRASTRUCTURE_CAP, 2 * Backoff(n, INFRASTRUCTURE_CAP))
  {
    if n >= 11 {
      Pow2Grows(10, 3);
      assert Pow2(3) == 8;
    }
  }

  // ---- eligibility -----------------------------------------------------------------------------

  function AttemptsFor(attempts: seq<Attempt>, key: JobKey): seq<Attempt> {
    if attempts == [] then []
    else AttemptsFor(Init(attempts), key) + if key in Last(attempts).intent.jobs then [Last(attempts)] else []
  }

  /** Attempts whose answer was about the content asked for, not about the connection. */
  function ContentAttempts(attempts: seq<Attempt>, xs: seq<Exchange>): seq<Attempt> {
    if attempts == [] then []
    else ContentAttempts(Init(attempts), xs) + if Failed(xs, Last(attempts)) then [] else [Last(attempts)]
  }

  predicate ContentBackoffOver(attempts: seq<Attempt>, xs: seq<Exchange>, now: int) {
    var content := ContentAttempts(attempts, xs);
    content != [] ==> now - Last(content).at >= Backoff(|content|, CONTENT_CAP) * SECOND
  }

  /** A job that is due, unfinished and not waiting out its own content backoff. */
  predicate Eligible(s: Setting, attempts: seq<Attempt>, xs: seq<Exchange>, now: int, job: Job) {
    && job.ready <= now
    && Success(s.context, xs, job) == None
    && ContentBackoffOver(AttemptsFor(attempts, job.key), xs, now)
  }

  /** The positions of the attempts that were made for a job and answered about its content. */
  function ContentTries(attempts: seq<Attempt>, xs: seq<Exchange>, key: JobKey): set<nat> {
    set i: nat | i < |attempts| && key in attempts[i].intent.jobs && !Failed(xs, attempts[i])
  }

  /** The wait after `n` content answers: 300 seconds, doubling, at most six hours. */
  function ContentWait(n: nat): int
    requires n > 0
  {
    Min(21_600, 300 * Pow2(Min(n - 1, 10))) * SECOND
  }

  predicate Chronological(attempts: seq<Attempt>) {
    forall i, j :: 0 <= i < j < |attempts| ==> attempts[i].at <= attempts[j].at
  }

  lemma {:induction false} ContentIsTries(attempts: seq<Attempt>, xs: seq<Exchange>, key: JobKey)
    requires Chronological(attempts)
    ensures var content, tries := ContentAttempts(AttemptsFor(attempts, key), xs), ContentTries(attempts, xs, key);
      && |content| == |tries|
      && (content != [] ==> exists i :: i in tries && attempts[i] == Last(content))
      && forall i :: i in tries ==> content != [] && attempts[i].at <= Last(content).at
  {
    if attempts != [] {
      var before, last := Init(attempts), |attempts| - 1;
      ContentIsTries(before, xs, key);
      TriesGrow(attempts, xs, key);
      ContentGrows(attempts, xs, key);
      if last in ContentTries(attempts, xs, key) {
        assert |ContentTries(attempts, xs, key)| == |ContentTries(before, xs, key)| + 1;
        assert attempts[last] == Last(ContentAttempts(AttemptsFor(attempts, key), xs));
      }
    }
  }

  lemma {:induction false} ContentGrows(attempts: seq<Attempt>, xs: seq<Exchange>, key: JobKey)
    requires attempts != []
    ensures ContentAttempts(AttemptsFor(attempts, key), xs) ==
      ContentAttempts(AttemptsFor(Init(attempts), key), xs)
      + if key in Last(attempts).intent.jobs && !Failed(xs, Last(attempts)) then [Last(attempts)] else []
  {
    var earlier, last := AttemptsFor(Init(attempts), key), Last(attempts);
    if key in last.intent.jobs {
      assert Init(earlier + [last]) == earlier && Last(earlier + [last]) == last;
      assert AttemptsFor(attempts, key) == earlier + [last];
    } else {
      assert AttemptsFor(attempts, key) == earlier;
    }
  }

  lemma {:induction false} TriesGrow(attempts: seq<Attempt>, xs: seq<Exchange>, key: JobKey)
    requires attempts != []
    ensures ContentTries(attempts, xs, key) ==
      ContentTries(Init(attempts), xs, key)
      + if key in Last(attempts).intent.jobs && !Failed(xs, Last(attempts)) then {|attempts| - 1} else {}
    ensures |attempts| - 1 !in ContentTries(Init(attempts), xs, key)
  {
  }

  /**
   A job is eligible exactly when it is ready, no exchange has delivered it, and after each attempt for
   it that was answered about content the whole content wait has passed.
   */
  lemma {:induction false} EligibleExactlyWhen(
    s: Setting, attempts: seq<Attempt>, xs: seq<Exchange>, now: int, job: Job)
    requires Chronological(attempts)
    ensures var tries := ContentTries(attempts, xs, job.key);
      Eligible(s, attempts, xs, now, job) <==>
        && job.ready <= now
        && (forall j :: 0 <= j < |xs| ==>
              !Delivers(s.context, xs[j], job.key, job.dates, job.ready, job.conid, job.schedule))
        && forall i :: i in tries ==> now - attempts[i].at >= ContentWait(|tries|)
  {
    SuccessIsFirst(s.context, xs, job);
    ContentIsTries(attempts, xs, job.key);
    var content, tries := ContentAttempts(AttemptsFor(attempts, job.key), xs), ContentTries(attempts, xs, job.key);
    if content != [] {
      var i :| i in tries && attempts[i] == Last(content);
      assert ContentWait(|tries|) == Backoff(|content|, CONTENT_CAP) * SECOND;
    }
  }

  datatype Candidate = Candidate(job: Job, previous: nat)

  function EligibleJobs(
    s: Setting, attempts: seq<Attempt>, xs: seq<Exchange>, now: int, jobs: seq<Job>): seq<Candidate>
  {
    if jobs == [] then []
    else EligibleJobs(s, attempts, xs, now, Init(jobs)) + EligibleJob(s, attempts, xs, now, Last(jobs))
  }

  function EligibleJob(s: Setting, attempts: seq<Attempt>, xs: seq<Exchange>, now: int, job: Job): seq<Candidate> {
    if Eligible(s, attempts, xs, now, job) then [Candidate(job, |AttemptsFor(attempts, job.key)|)] else []
  }

  predicate IsBenchmark(key: JobKey) {
    key.owner == Benchmark
  }

  predicate CarriesBenchmark(a: Attempt) {
    exists i :: 0 <= i < |a.intent.jobs| && IsBenchmark(a.intent.jobs[i])
  }

  /** Whether any of the last four attempts carried a benchmark job. */
  predicate RecentBenchmark(attempts: seq<Attempt>) {
    exists i :: 0 <= i < |attempts| && |attempts| - RESERVATION <= i && CarriesBenchmark(attempts[i])
  }

  // ---- priority -----------------------------------------------------------------------------------

  /** The owner class that has the turn first, then unexpired before expired, fresh before retried, earliest first. */
  predicate Precedes(s: Setting, now: int, recent: bool, a: Candidate, b: Candidate) {
    var aOther, bOther := IsBenchmark(a.job.key) == recent, IsBenchmark(b.job.key) == recent;
    var aLate, bLate := a.job.deadline <= now, b.job.deadline <= now;
    var aRetry, bRetry := a.previous > 0, b.previous > 0;
    if aOther != bOther then bOther
    else if aLate != bLate then bLate
    else if aRetry != bRetry then bRetry
    else if a.job.deadline != b.job.deadline then a.job.deadline < b.job.deadline
    else if a.job.ready != b.job.ready then a.job.ready < b.job.ready
    else Sorting.TextLeq(s.text(a.job.key), s.text(b.job.key))
  }

  function Priority(s: Setting, now: int, recent: bool): (Candidate, Candidate) -> bool {
    (a, b) => Precedes(s, now, recent, a, b)
  }

  lemma {:induction false} PriorityIsTotal(s: Setting, now: int, recent: bool)
    ensures Sorting.TotalPreorder(Priority(s, now, recent))
  {
    var leq := Priority(s, now, recent);
    forall a, b ensures leq(a, b) || leq(b, a) {
      Sorting.TextTotal(s.text(a.job.key), s.text(b.job.key));
    }
    forall a, b, c | leq(a, b) && leq(b, c) ensures leq(a, c) {
      if Sorting.TextLeq(s.text(a.job.key), s.text(b.job.key))
        && Sorting.TextLeq(s.text(b.job.key), s.text(c.job.key))
      {
        Sorting.TextTransitive(s.text(a.job.key), s.text(b.job.key), s.text(c.job.key));
      }
    }
  }

  // ---- the request ------------------------------------------------------------------------------------

  predicate WindowOpen(s: Setting, rows: seq<Row>, now: int)
    requires rows != []
  {
    && s.boundary <= now < s.context.deadline
    && Last(rows).kind != Journal.Seal
    && !(NETWORK_CLOSES <= s.context.zone.localTime(now) < NETWORK_OPENS)
  }

  /** One request can serve jobs for the same symbol, contract and kind of data. */
  predicate Mergeable(a: Job, b: Job) {
    a.symbol == b.symbol && a.conid == b.conid && a.schedule == b.schedule
  }

  function Merged(eligible: seq<Candidate>, chosen: Job): seq<Job> {
    if eligible == [] then []
    else Merged(Init(eligible), chosen) + if Mergeable(Last(eligible).job, chosen) then [Last(eligible).job] else []
  }

  function AllDates(jobs: seq<Job>): seq<int> {
    if jobs == [] then [] else AllDates(Init(jobs)) + Last(jobs).dates
  }

  function Keys(jobs: seq<Job>): (r: seq<JobKey>)
    ensures |r| == |jobs| && forall i :: 0 <= i < |r| ==> r[i] == jobs[i].key
  {
    seq(|jobs|, i requires 0 <= i < |jobs| => jobs[i].key)
  }

  function ByText(s: Setting): (JobKey, JobKey) -> bool {
    (a, b) => Sorting.TextLeq(s.text(a), s.text(b))
  }

  function Request(s: Setting, merged: seq<Job>, chosen: Job, now: int): Intent {
    var dates := Sorting.SortedSet(AllDates(merged));
    Intent(
      chosen.symbol, chosen.conid, chosen.schedule, if dates == [] then 0 else dates[0], now,
      Sorting.Sort(ByText(s), Keys(merged)), dates, now)
  }

  /** The candidates in priority order, or none when the worker must not ask at all. */
  function Queue(s: Setting, rows: seq<Row>, jobs: seq<Job>, now: int): seq<Candidate>
    requires Typed(rows) && rows != []
  {
    var attempts, xs := Attempts(rows), Exchanges(rows);
    if !WindowOpen(s, rows, now) then []
    else if attempts != [] && now - Last(attempts).at < MINIMUM_GAP then []
    else if RetryAt(attempts, xs).Some? && now < RetryAt(attempts, xs).value then []
    else Sorting.Sort(Priority(s, now, RecentBenchmark(attempts)), EligibleJobs(s, attempts, xs, now, jobs))
  }

  function Next(s: Setting, rows: seq<Row>, jobs: seq<Job>, now: int): Option<Intent>
    requires Typed(rows) && rows != []
  {
    var queue := Queue(s, rows, jobs, now);
    if queue == [] then None else Some(Request(s, Merged(queue, queue[0].job), queue[0].job, now))
  }

  method NextRequest(s: Setting, rows: seq<Row>, jobs: seq<Job>, now: int) returns (r: Option<Intent>)
    requires Typed(rows) && rows != []
    ensures r == Next(s, rows, jobs, now)
  {
    if !WindowOpen(s, rows, now) {
      return None;
    }
    var attempts, xs := Attempts(rows), Exchanges(rows);
    if attempts != [] && now - Last(attempts).at < MINIMUM_GAP {
      return None;
    }
    var retryAt := InfrastructureRetryAt(attempts, xs);
    if retryAt.Some? && now < retryAt.value {
      return None;
    }
    var eligible := CollectEligible(s, attempts, xs, now, jobs);
    if eligible == [] {
      return None;
    }
    Sorting.SortContents(Priority(s, now, RecentBenchmark(attempts)), eligible);
    eligible := Sorting.Sort(Priority(s, now, RecentBenchmark(attempts)), eligible);
    var chosen := eligible[0].job;
    var merged := MergeWith(eligible, chosen);
    return Some(Request(s, merged, chosen, now));
  }

  method CollectEligible(s: Setting, attempts: seq<Attempt>, xs: seq<Exchange>, now: int, jobs: seq<Job>)
    returns (eligible: seq<Candidate>)
    ensures eligible == EligibleJobs(s, attempts, xs, now, jobs)
  {
    eligible := [];
    for i := 0 to |jobs|
      invariant eligible == EligibleJobs(s, attempts, xs, now, jobs[..i])
    {
      assert Init(jobs[..i + 1]) == jobs[..i] && Last(jobs[..i + 1]) == jobs[i];
      var previous := AttemptsFor(attempts, jobs[i].key);
      if jobs[i].ready > now || Success(s.context, xs, jobs[i]).Some? {
        continue;
      }
      var content := ContentAttempts(previous, xs);
      if content != [] && now - Last(content).at < Backoff(|content|, CONTENT_CAP) * SECOND {
        continue;
      }
      eligible := eligible + [Candidate(jobs[i], |previous|)];
    }
    assert jobs[..|jobs|] == jobs;
  }

  method MergeWith(eligible: seq<Candidate>, chosen: Job) returns (merged: seq<Job>)
    ensures merged == Merged(eligible, chosen)
  {
    merged := [];
    for i := 0 to |eligible|
      invariant merged == Merged(eligible[..i], chosen)
    {
      assert Init(eligible[..i + 1]) == eligible[..i] && Last(eligible[..i + 1]) == eligible[i];
      if Mergeable(eligible[i].job, chosen) {
        merged := merged + [eligible[i].job];
      }
    }
    assert eligible[..|eligible|] == eligible;
  }

  // ---- what a request says ------------------------------------------------------------------------------

  lemma {:induction false} EligibleMembers(
    s: Setting, attempts: seq<Attempt>, xs: seq<Exchange>, now: int, jobs: seq<Job>)
    ensures forall job :: job in jobs && Eligible(s, attempts, xs, now, job) <==>
      Candidate(job, |AttemptsFor(attempts, job.key)|) in EligibleJobs(s, attempts, xs, now, jobs)
    ensures forall c :: c in EligibleJobs(s, attempts, xs, now, jobs) ==>
      c.previous == |AttemptsFor(attempts, c.job.key)|
  {
    if jobs != [] {
      EligibleMembers(s, attempts, xs, now, Init(jobs));
      assert jobs == Init(jobs) + [Last(jobs)];
    }
  }

  lemma {:induction false} MergedMembers(eligible: seq<Candidate>, chosen: Job)
    ensures forall job :: job in Merged(eligible, chosen) <==>
      Mergeable(job, chosen) && exists i :: 0 <= i < |eligible| && eligible[i].job == job
  {
    if eligible != [] {
      MergedMembers(Init(eligible), chosen);
      forall job ensures job in Merged(eligible, chosen) <==>
        Mergeable(job, chosen) && exists i :: 0 <= i < |eligible| && eligible[i].job == job
      {
        if exists i :: 0 <= i < |eligible| && eligible[i].job == job {
          var i :| 0 <= i < |eligible| && eligible[i].job == job;
          if i < |eligible| - 1 {
            assert Init(eligible)[i].job == job;
          }
        }
        if job in Merged(Init(eligible), chosen) {
          var i :| 0 <= i < |Init(eligible)| && Init(eligible)[i].job == job;
          assert eligible[i].job == job;
        }
      }
    }
  }

  lemma {:induction false} AllDatesMembers(jobs: seq<Job>)
    ensures forall d :: d in AllDates(jobs) <==> exists i :: 0 <= i < |jobs| && d in jobs[i].dates
  {
    if jobs != [] {
      AllDatesMembers(Init(jobs));
      forall d ensures d in AllDates(jobs) <==> exists i :: 0 <= i < |jobs| && d in jobs[i].dates {
        if d in AllDates(Init(jobs)) {
          var i :| 0 <= i < |Init(jobs)| && d in Init(jobs)[i].dates;
          assert d in jobs[i].dates;
        }
        if exists i :: 0 <= i < |jobs| && d in jobs[i].dates {
          var i :| 0 <= i < |jobs| && d in jobs[i].dates;
          if i < |jobs| - 1 {
            assert d in Init(jobs)[i].dates;
          }
        }
      }
    }
  }

  /** The queue holds exactly the eligible jobs, and its head precedes every one of them. */
  lemma {:induction false} QueueHead(s: Setting, rows: seq<Row>, jobs: seq<Job>, now: int)
    requires Typed(rows) && rows != [] && Queue(s, rows, jobs, now) != []
    ensures var queue, attempts := Queue(s, rows, jobs, now), Attempts(rows);
      && (forall c :: c in queue ==> c.job in jobs && Eligible(s, attempts, Exchanges(rows), now, c.job))
      && (forall job :: job in jobs && Eligible(s, attempts, Exchanges(rows), now, job) ==>
            Candidate(job, |AttemptsFor(attempts, job.key)|) in queue)
      && (forall c :: c in queue ==> Precedes(s, now, RecentBenchmark(attempts), queue[0], c))
  {
    var attempts, xs := Attempts(rows), Exchanges(rows);
    var leq, eligible := Priority(s, now, RecentBenchmark(attempts)), EligibleJobs(s, attempts, xs, now, jobs);
    PriorityIsTotal(s, now, RecentBenchmark(attempts));
    Sorting.SortSorts(leq, eligible);
    Sorting.SortMembers(leq, eligible);
    EligibleMembers(s, attempts, xs, now, jobs);
    var queue := Queue(s, rows, jobs, now);
    forall c | c in queue ensures leq(queue[0], c) {
      var i :| 0 <= i < |queue| && queue[i] == c;
      if i == 0 {
        assert leq(c, c) || leq(c, c);
      }
    }
    forall c | c in queue ensures c.job in jobs && Eligible(s, attempts, xs, now, c.job) {
      assert c == Candidate(c.job, |AttemptsFor(attempts, c.job.key)|);
    }
  }

  /** A job the next request serves: eligible, and mergeable with the head of the queue. */
  predicate Served(s: Setting, rows: seq<Row>, jobs: seq<Job>, now: int, job: Job)
    requires Typed(rows) && rows != [] && Queue(s, rows, jobs, now) != []
  {
    && job in jobs
    && Eligible(s, Attempts(rows), Exchanges(rows), now, job)
    && Mergeable(job, Queue(s, rows, jobs, now)[0].job)
  }

  /** The request names exactly the keys of the jobs it serves. */
  lemma {:induction false} RequestNamesServedJobs(s: Setting, rows: seq<Row>, jobs: seq<Job>, now: int, key: JobKey)
    requires Typed(rows) && rows != [] && Next(s, rows, jobs, now).Some?
    ensures key in Next(s, rows, jobs, now).value.jobs <==>
      exists job :: Served(s, rows, jobs, now, job) && job.key == key
  {
    var queue := Queue(s, rows, jobs, now);
    var merged := Merged(queue, queue[0].job);
    ServedJobs(s, rows, jobs, now);
    Sorting.SortMembers(ByText(s), Keys(merged));
    if key in Keys(merged) {
      var i :| 0 <= i < |merged| && Keys(merged)[i] == key;
      assert merged[i] in merged;
      assert Served(s, rows, jobs, now, merged[i]);
    }
    if exists job :: Served(s, rows, jobs, now, job) && job.key == key {
      var job :| Served(s, rows, jobs, now, job) && job.key == key;
      assert job in merged;
      var i :| 0 <= i < |merged| && merged[i] == job;
      assert Keys(merged)[i] == key;
    }
  }

  /** It asks for exactly the union of their dates, starting from the earliest. */
  lemma {:induction false} RequestAsksServedDates(s: Setting, rows: seq<Row>, jobs: seq<Job>, now: int, d: int)
    requires Typed(rows) && rows != [] && Next(s, rows, jobs, now).Some?
    ensures var r := Next(s, rows, jobs, now).value;
      && (d in r.requiredDates <==> exists job :: Served(s, rows, jobs, now, job) && d in job.dates)
      && (d in r.requiredDates ==> r.startDate <= d && r.startDate in r.requiredDates)
  {
    var queue := Queue(s, rows, jobs, now);
    var merged := Merged(queue, queue[0].job);
    ServedJobs(s, rows, jobs, now);
    AllDatesMembers(merged);
    Sorting.SortedSetKeeps(AllDates(merged));
    if d in AllDates(merged) {
      var i :| 0 <= i < |merged| && d in merged[i].dates;
      assert merged[i] in merged;
      assert Served(s, rows, jobs, now, merged[i]);
    }
    if exists job :: Served(s, rows, jobs, now, job) && d in job.dates {
      var job :| Served(s, rows, jobs, now, job) && d in job.dates;
      assert job in merged;
      var i :| 0 <= i < |merged| && merged[i] == job;
      assert d in merged[i].dates;
    }
  }

  /** The request is for the data of each job it names, up to now, with its jobs and dates in order. */
  lemma {:induction false} RequestFitsItsJobs(s: Setting, rows: seq<Row>, jobs: seq<Job>, now: int, key: JobKey)
    requires Typed(rows) && rows != [] && Next(s, rows, jobs, now).Some?
    ensures var r := Next(s, rows, jobs, now).value;
      && r.endAt == r.plannedAt == now
      && (forall i, j :: 0 <= i < j < |r.jobs| ==> Sorting.TextLeq(s.text(r.jobs[i]), s.text(r.jobs[j])))
      && (forall i, j :: 0 <= i < j < |r.requiredDates| ==> r.requiredDates[i] < r.requiredDates[j])
      && (key in r.jobs ==>
            exists job :: job in jobs && job.key == key
              && r.symbol == job.symbol && r.expectedConid == job.conid && r.schedule == job.schedule
              && Eligible(s, Attempts(rows), Exchanges(rows), now, job)
              && forall d :: d in job.dates ==> d in r.requiredDates)
  {
    var r, queue := Next(s, rows, jobs, now).value, Queue(s, rows, jobs, now);
    var merged := Merged(queue, queue[0].job);
    TextOrderIsTotal(s);
    Sorting.SortSorts(ByText(s), Keys(merged));
    Sorting.SortedSetKeeps(AllDates(merged));
    RequestNamesServedJobs(s, rows, jobs, now, key);
    if key in r.jobs {
      var job :| Served(s, rows, jobs, now, job) && job.key == key;
      forall d | d in job.dates ensures d in r.requiredDates {
        RequestAsksServedDates(s, rows, jobs, now, d);
      }
    }
  }

  lemma {:induction false} TextOrderIsTotal(s: Setting)
    ensures Sorting.TotalPreorder(ByText(s))
  {
    var leq := ByText(s);
    forall a, b ensures leq(a, b) || leq(b, a) {
      Sorting.TextTotal(s.text(a), s.text(b));
    }
    forall a, b, c | leq(a, b) && leq(b, c) ensures leq(a, c) {
      Sorting.TextTransitive(s.text(a), s.text(b), s.text(c));
    }
  }

  lemma {:induction false} ServedJobs(s: Setting, rows: seq<Row>, jobs: seq<Job>, now: int)
    requires Typed(rows) && rows != [] && Queue(s, rows, jobs, now) != []
    ensures var queue := Queue(s, rows, jobs, now);
      forall job :: job in Merged(queue, queue[0].job) <==> Served(s, rows, jobs, now, job)
  {
    var queue := Queue(s, rows, jobs, now);
    QueueHead(s, rows, jobs, now);
    MergedMembers(queue, queue[0].job);
    forall job ensures (exists i :: 0 <= i < |queue| && queue[i].job == job) <==>
      job in jobs && Eligible(s, Attempts(rows), Exchanges(rows), now, job)
    {
      QueuedExactly(s, Attempts(rows), Exchanges(rows), now, jobs, queue, job);
    }
  }

  /** A queue of exactly the eligible candidates holds exactly the eligible jobs. */
  lemma {:induction false} QueuedExactly(
    s: Setting, attempts: seq<Attempt>, xs: seq<Exchange>, now: int, jobs: seq<Job>, queue: seq<Candidate>, job: Job)
    requires forall c :: c in queue ==> c.job in jobs && Eligible(s, attempts, xs, now, c.job)
    requires forall job :: job in jobs && Eligible(s, attempts, xs, now, job) ==>
      Candidate(job, |AttemptsFor(attempts, job.key)|) in queue
    ensures (exists i :: 0 <= i < |queue| && queue[i].job == job) <==>
      job in jobs && Eligible(s, attempts, xs, now, job)
  {
    if exists i :: 0 <= i < |queue| && queue[i].job == job {
      var i :| 0 <= i < |queue| && queue[i].job == job;
      assert queue[i] in queue;
    }
    if job in jobs && Eligible(s, attempts, xs, now, job) {
      var c := Candidate(job, |AttemptsFor(attempts, job.key)|);
      assert c in queue;
      var i :| 0 <= i < |queue| && queue[i] == c;
      assert queue[i].job == job;
    }
  }

  predicate NoneIsEligible(s: Setting, attempts: seq<Attempt>, xs: seq<Exchange>, now: int, jobs: seq<Job>) {
    forall job :: job in jobs ==> !Eligible(s, attempts, xs, now, job)
  }

  /** Less than 300 seconds since the last attempt. */
  predicate TooSoon(attempts: seq<Attempt>, now: int) {
    attempts != [] && now - Last(attempts).at < 300 * SECOND
  }

  /** Infrastructure failed last, and the wait for so many failures in a row is not over. */
  predicate BackingOff(attempts: seq<Attempt>, xs: seq<Exchange>, now: int) {
    var n := Trailing(attempts, xs);
    n > 0 && now - Last(attempts).at < Min(1_800, 300 * Pow2(Min(n - 1, 10))) * SECOND
  }

  lemma {:induction false} NextNeedsQueue(s: Setting, rows: seq<Row>, jobs: seq<Job>, now: int)
    requires Typed(rows) && rows != []
    ensures Next(s, rows, jobs, now) == None <==> Queue(s, rows, jobs, now) == []
  {
  }

  lemma {:induction false} QueueIsEmpty(s: Setting, rows: seq<Row>, jobs: seq<Job>, now: int)
    requires Typed(rows) && rows != []
    ensures var attempts, xs := Attempts(rows), Exchanges(rows);
      Queue(s, rows, jobs, now) == [] <==>
        || !WindowOpen(s, rows, now)
        || TooSoon(attempts, now) || BackingOff(attempts, xs, now)
        || NoneIsEligible(s, attempts, xs, now, jobs)
  {
    var attempts, xs := Attempts(rows), Exchanges(rows);
    RetryIsAhead(attempts, xs, now);
    NoneEligible(s, attempts, xs, now, jobs);
    Sorting.SortContents(Priority(s, now, RecentBenchmark(attempts)), EligibleJobs(s, attempts, xs, now, jobs));
  }

  lemma {:induction false} RetryIsAhead(attempts: seq<Attempt>, xs: seq<Exchange>, now: int)
    ensures RetryAt(attempts, xs).Some? && now < RetryAt(attempts, xs).value <==> BackingOff(attempts, xs, now)
  {
  }

  /** The worker stays idle only for a stated reason. */
  lemma {:induction false} IdleExactlyWhen(s: Setting, rows: seq<Row>, jobs: seq<Job>, now: int)
    requires Typed(rows) && rows != []
    ensures var attempts, xs := Attempts(rows), Exchanges(rows);
      Next(s, rows, jobs, now) == None <==>
        || now < s.boundary || now >= s.context.deadline || Last(rows).kind == Journal.Seal
        || 28_800 <= s.context.zone.localTime(now) < 64_800
        || TooSoon(attempts, now) || BackingOff(attempts, xs, now)
        || NoneIsEligible(s, attempts, xs, now, jobs)
  {
    NextNeedsQueue(s, rows, jobs, now);
    QueueIsEmpty(s, rows, jobs, now);
  }

  lemma {:induction false} NoneEligible(s: Setting, attempts: seq<Attempt>, xs: seq<Exchange>, now: int, jobs: seq<Job>)
    ensures EligibleJobs(s, attempts, xs, now, jobs) == [] <==> NoneIsEligible(s, attempts, xs, now, jobs)
  {
    var eligible := EligibleJobs(s, attempts, xs, now, jobs);
    EligibleMembers(s, attempts, xs, now, jobs);
    if eligible != [] {
      var c := eligible[0];
      assert c == Candidate(c.job, |AttemptsFor(attempts, c.job.key)|);
      assert c.job in jobs && Eligible(s, attempts, xs, now, c.job);
    }
  }
}
