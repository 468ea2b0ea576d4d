/**
 The evidence a journal holds for each acquisition job: pins, first complete receipts and
 the three stages built from them.
 */
module Evidence {
  import opened Prelude
  import opened Calendar
  import opened LocalTime
  import opened Window
  import opened Receipts
  import Journal

  const CLOSE_SEARCH := 32

  datatype CaseRecord = CaseRecord(
    row: SourceRow, symbol: string, firstObservedAt: int, sourceObservedAt: int, admission: Admission, rest: string)

  datatype SealMaterial = SealMaterial(
    reportAsOf: int, calendarSequence: int, calendarSha: string, watermarkSequence: int, watermarkSha: string,
    reportSha: string)

  datatype Payload =
    | ManifestOf(manifest: Manifest)
    | CaseOf(record: CaseRecord)
    | PollOf(sourceObservedAt: int, rest: string)
    | IntentOf(intent: Intent)
    | SourceOf(source: Source)
    | CycleOf(result: string, rest: string)
    | SealOf(material: SealMaterial)

  type Row = Journal.Row<Payload>

  /** Every record carries the payload its kind is written with. */
  predicate Typed(rows: seq<Row>) {
    forall i :: 0 <= i < |rows| ==> TypedRow(rows[i])
  }

  predicate TypedRow(row: Row) {
    && row.raw.Canonical?
    && match row.kind
       case Activation => row.raw.envelope.payload.ManifestOf?
       case Custody => row.raw.envelope.payload.CaseOf?
       case CustodyPoll => row.raw.envelope.payload.PollOf?
       case Attempt => row.raw.envelope.payload.IntentOf?
       case Response => row.raw.envelope.payload.SourceOf?
       case Cycle => row.raw.envelope.payload.CycleOf?
       case Seal => row.raw.envelope.payload.SealOf?
       case Foreign(_) => false
  }

  datatype Context = Context(zone: Zone, days: Days, deadline: int)

  datatype Job = Job(
    key: JobKey, symbol: string, dates: seq<int>, ready: int, deadline: int, conid: Option<int>, schedule: bool)

  // ---- attempts and the responses to them ------------------------------------------------------

  datatype Attempt = Attempt(sha: string, at: int, intent: Intent)

  function Attempts(rows: seq<Row>): seq<Attempt>
    requires Typed(rows)
  {
    if rows == [] then [] else Attempts(Init(rows)) + AttemptAt(Last(rows))
  }

  function AttemptAt(row: Row): seq<Attempt>
    requires TypedRow(row)
  {
    if row.kind == Journal.Attempt
    then [Attempt(row.sha, row.raw.envelope.recordedAt, row.raw.envelope.payload.intent)]
    else []
  }

  function AttemptBySha(attempts: seq<Attempt>, sha: string): Option<Attempt> {
    if attempts == [] then None
    else if attempts[0].sha == sha then Some(attempts[0])
    else AttemptBySha(attempts[1..], sha)
  }

  /** Responses paired with the attempts they answer, in journal order. */
  function Exchanges(rows: seq<Row>): seq<Exchange>
    requires Typed(rows)
  {
    ExchangesOf(Attempts(rows), rows)
  }

  function ExchangesOf(attempts: seq<Attempt>, rows: seq<Row>): seq<Exchange>
    requires Typed(rows)
  {
    if rows == [] then []
    else ExchangesOf(attempts, Init(rows)) + ExchangeAt(attempts, Last(rows))
  }

  function ExchangeAt(attempts: seq<Attempt>, row: Row): seq<Exchange>
    requires TypedRow(row)
  {
    if row.kind != Journal.Response then []
    else
      match AttemptBySha(attempts, row.entity)
      case None => []
      case Some(a) =>
        [Exchange(
          a.sha, a.at, a.intent, row.entity, row.sha, row.raw.envelope.recordedAt, row.raw.envelope.payload.source)]
  }

  lemma {:induction false} AttemptsExtend(rows: seq<Row>, rows': seq<Row>)
    requires Typed(rows') && rows <= rows'
    ensures Typed(rows) && Attempts(rows) <= Attempts(rows')
  {
    assert forall i :: 0 <= i < |rows| ==> rows[i] == rows'[i];
    if rows != rows' {
      assert rows <= Init(rows');
      AttemptsExtend(rows, Init(rows'));
    }
  }

  lemma {:induction false} LookupExtends(a: seq<Attempt>, b: seq<Attempt>, sha: string)
    requires a <= b && AttemptBySha(a, sha).Some?
    ensures AttemptBySha(b, sha) == AttemptBySha(a, sha)
  {
    if a[0].sha != sha {
      assert a[1..] <= b[1..];
      LookupExtends(a[1..], b[1..], sha);
    }
  }

  lemma {:induction false} AttemptIsFound(rows: seq<Row>, sha: string)
    requires Typed(rows) && Journal.IsAttempt(rows, sha)
    ensures AttemptBySha(Attempts(rows), sha).Some?
  {
    var i :| 0 <= i < |rows| && rows[i].kind == Journal.Attempt && rows[i].sha == sha;
    if i == |rows| - 1 {
      FoundAtEnd(Attempts(Init(rows)), Last(Attempts(rows)));
      assert Attempts(rows) == Attempts(Init(rows)) + [Last(Attempts(rows))];
    } else {
      assert Init(rows)[i] == rows[i];
      AttemptIsFound(Init(rows), sha);
      LookupExtends(Attempts(Init(rows)), Attempts(rows), sha);
    }
  }

  lemma {:induction false} FoundAtEnd(attempts: seq<Attempt>, last: Attempt)
    ensures AttemptBySha(attempts + [last], last.sha).Some?
  {
    if attempts != [] && attempts[0].sha != last.sha {
      FoundAtEnd(attempts[1..], last);
      assert (attempts + [last])[1..] == attempts[1..] + [last];
    }
  }

  /** Every recorded response has its attempt among the attempts recorded so far. */
  lemma {:induction false} ResponsesHaveAttempts(c: Journal.Codec<Payload>, rows: seq<Row>, i: nat)
    requires Journal.Accepted(c, rows) && Typed(rows) && i < |rows| && rows[i].kind == Journal.Response
    ensures AttemptBySha(Attempts(rows), rows[i].entity).Some?
  {
    Journal.ResponsesAnswerOnce(c, rows, i);
    AttemptIsFound(rows, rows[i].entity);
  }

  lemma {:induction false} ExchangesOfExtend(a: seq<Attempt>, b: seq<Attempt>, rows: seq<Row>)
    requires Typed(rows) && a <= b
    requires forall i :: 0 <= i < |rows| && rows[i].kind == Journal.Response ==> AttemptBySha(a, rows[i].entity).Some?
    ensures ExchangesOf(b, rows) == ExchangesOf(a, rows)
  {
    if rows != [] {
      assert forall i :: 0 <= i < |rows| - 1 ==> Init(rows)[i] == rows[i];
      ExchangesOfExtend(a, b, Init(rows));
      if Last(rows).kind == Journal.Response {
        LookupExtends(a, b, Last(rows).entity);
      }
    }
  }

  lemma {:induction false} ExchangesOfPrefix(attempts: seq<Attempt>, rows: seq<Row>, rows': seq<Row>)
    requires Typed(rows') && rows <= rows' && Typed(rows)
    ensures ExchangesOf(attempts, rows) <= ExchangesOf(attempts, rows')
  {
    if rows != rows' {
      assert rows <= Init(rows');
      ExchangesOfPrefix(attempts, rows, Init(rows'));
    }
  }

  /** Extending the journal only appends exchanges. */
  lemma {:induction false} ExchangesExtend(c: Journal.Codec<Payload>, rows: seq<Row>, rows': seq<Row>)
    requires Journal.Accepted(c, rows) && Typed(rows') && rows <= rows'
    ensures Typed(rows) && Exchanges(rows) <= Exchanges(rows')
  {
    AttemptsExtend(rows, rows');
    forall i | 0 <= i < |rows| && rows[i].kind == Journal.Response
      ensures AttemptBySha(Attempts(rows), rows[i].entity).Some?
    {
      ResponsesHaveAttempts(c, rows, i);
    }
    ExchangesOfExtend(Attempts(rows), Attempts(rows'), rows);
    ExchangesOfPrefix(Attempts(rows'), rows, rows');
  }

  /** The exchange is response row `r` with attempt row `a`, which it names. */
  predicate Pairs(rows: seq<Row>, a: nat, r: nat, x: Exchange)
    requires Typed(rows) && a < |rows| && r < |rows|
  {
    && rows[a].kind == Journal.Attempt && rows[r].kind == Journal.Response && rows[r].entity == rows[a].sha
    && x.attemptSha == rows[a].sha && x.entity == rows[r].entity && x.recordSha == rows[r].sha
    && x.attemptAt == rows[a].raw.envelope.recordedAt && x.recordedAt == rows[r].raw.envelope.recordedAt
    && x.intent == rows[a].raw.envelope.payload.intent && x.source == rows[r].raw.envelope.payload.source
  }

  lemma {:induction false} AttemptIsRow(rows: seq<Row>, a: Attempt) returns (i: nat)
    requires Typed(rows) && a in Attempts(rows)
    ensures i < |rows| && rows[i].kind == Journal.Attempt && AttemptAt(rows[i]) == [a]
  {
    if a in AttemptAt(Last(rows)) {
      return |rows| - 1;
    }
    i := AttemptIsRow(Init(rows), a);
  }

  lemma {:induction false} LookupIsMember(attempts: seq<Attempt>, sha: string)
    ensures var a := AttemptBySha(attempts, sha); a.Some? ==> a.value in attempts && a.value.sha == sha
  {
    if attempts != [] && attempts[0].sha != sha {
      LookupIsMember(attempts[1..], sha);
    }
  }

  lemma {:induction false} ExchangeIsPaired(all: seq<Row>, rows: seq<Row>, x: Exchange) returns (a: nat, r: nat)
    requires Typed(all) && Typed(rows) && rows <= all && x in ExchangesOf(Attempts(all), rows)
    ensures a < |all| && r < |rows| && Pairs(all, a, r, x)
  {
    if x in ExchangeAt(Attempts(all), Last(rows)) {
      r := |rows| - 1;
      LookupIsMember(Attempts(all), Last(rows).entity);
      a := AttemptIsRow(all, AttemptBySha(Attempts(all), Last(rows).entity).value);
    } else {
      a, r := ExchangeIsPaired(all, Init(rows), x);
    }
  }

  lemma {:induction false} ResponseIsExchanged(attempts: seq<Attempt>, rows: seq<Row>, r: nat)
    requires Typed(rows) && r < |rows|
    ensures forall x :: x in ExchangeAt(attempts, rows[r]) ==> x in ExchangesOf(attempts, rows)
  {
    if r < |rows| - 1 {
      assert Init(rows)[r] == rows[r];
      ResponseIsExchanged(attempts, Init(rows), r);
    }
  }

  /** Exchanges are exactly the recorded responses, each with the attempt it names. */
  lemma {:induction false} ExchangesArePaired(c: Journal.Codec<Payload>, rows: seq<Row>)
    requires Journal.Accepted(c, rows) && Typed(rows)
    ensures forall x :: x in Exchanges(rows) ==>
      exists a: nat, r: nat :: a < |rows| && r < |rows| && Pairs(rows, a, r, x)
    ensures forall r: nat :: r < |rows| && rows[r].kind == Journal.Response ==>
      exists a: nat, x :: a < |rows| && x in Exchanges(rows) && Pairs(rows, a, r, x)
  {
    forall x | x in Exchanges(rows) ensures exists a: nat, r: nat :: a < |rows| && r < |rows| && Pairs(rows, a, r, x) {
      var a, r := ExchangeIsPaired(rows, rows, x);
    }
    forall r: nat | r < |rows| && rows[r].kind == Journal.Response
      ensures exists a: nat, x :: a < |rows| && x in Exchanges(rows) && Pairs(rows, a, r, x)
    {
      ResponsesHaveAttempts(c, rows, r);
      var attempt := AttemptBySha(Attempts(rows), rows[r].entity).value;
      LookupIsMember(Attempts(rows), rows[r].entity);
      var a := AttemptIsRow(rows, attempt);
      var x := ExchangeAt(Attempts(rows), rows[r])[0];
      ResponseIsExchanged(Attempts(rows), rows, r);
      assert x in Exchanges(rows) && Pairs(rows, a, r, x);
    }
  }

  // ---- pins and first complete receipts -----------------------------------------------------------

  predicate Concerns(x: Exchange, owner: Owner) {
    exists i :: 0 <= i < |x.intent.jobs| && x.intent.jobs[i].owner == owner
  }

  /** The first valid qualification among an owner's exchanges. */
  function Pin(xs: seq<Exchange>, owner: Owner): Option<int> {
    if xs == [] then None
    else if Concerns(xs[0], owner) && QualifiedIdentity(xs[0]).Some? then QualifiedIdentity(xs[0])
    else Pin(xs[1..], owner)
  }

  predicate Completes(k: Context, x: Exchange, job: Job) {
    var r := Inspected(k.zone, k.days, x);
    && job.key in x.intent.jobs
    && job.ready <= x.attemptAt < k.deadline
    && r.responseAt.Some? && r.responseAt.value < k.deadline
    && x.recordedAt < k.deadline
    && r.conid == job.conid
    && Covers(r, job.dates, job.schedule)
  }

  /** The first exchange that completes a job; later ones are never searched. */
  function Success(k: Context, xs: seq<Exchange>, job: Job): (r: Option<Exchange>)
    ensures r.Some? ==> r.value in xs && Completes(k, r.value, job)
  {
    if xs == [] then None
    else if Completes(k, xs[0], job) then Some(xs[0])
    else Success(k, xs[1..], job)
  }

  /** What one exchange pins for an owner: nothing unless one of its jobs is the owner's. */
  function PinsFor(x: Exchange, owner: Owner): Option<int> {
    if exists key :: key in x.intent.jobs && key.owner == owner then QualifiedIdentity(x) else None
  }

  lemma {:induction false} PinsForIsConcern(x: Exchange, owner: Owner)
    ensures PinsFor(x, owner) == if Concerns(x, owner) then QualifiedIdentity(x) else None
  {
    if exists key :: key in x.intent.jobs && key.owner == owner {
      var key :| key in x.intent.jobs && key.owner == owner;
      var i :| 0 <= i < |x.intent.jobs| && x.intent.jobs[i] == key;
    }
  }

  /** The pin is what the first of an owner's exchanges that pins a contract pins, at position `n`. */
  lemma {:induction false} PinIsFirst(xs: seq<Exchange>, owner: Owner) returns (n: nat)
    ensures n <= |xs| && (n < |xs| <==> Pin(xs, owner).Some?)
    ensures n < |xs| ==> PinsFor(xs[n], owner) == Pin(xs, owner)
    ensures forall j :: 0 <= j < n ==> PinsFor(xs[j], owner) == None
  {
    if xs == [] {
      return 0;
    }
    PinsForIsConcern(xs[0], owner);
    if PinsFor(xs[0], owner).Some? {
      return 0;
    }
    n := PinIsFirst(xs[1..], owner);
    assert forall j :: 0 < j < |xs| ==> xs[j] == xs[1..][j - 1];
    n := n + 1;
  }

  /**
   An exchange delivers these dates to a job: it was asked for the job once the job was ready, and was
   recorded before the deadline with a usable receipt of the pinned contract and one sound row a date.
   */
  predicate Delivers(
    k: Context, x: Exchange, key: JobKey, dates: seq<int>, ready: int, conid: Option<int>, schedule: bool)
  {
    && key in x.intent.jobs && x.intent.schedule == schedule
    && ready <= x.attemptAt && x.recordedAt < k.deadline
    && Inspected(k.zone, k.days, x).usable && QualifiedIdentity(x) == conid
    && dates != []
    && forall i :: 0 <= i < |dates| ==> OneSoundRow(k.days, x, dates[i], schedule)
  }

  lemma {:induction false} CompletesExactlyWhen(k: Context, x: Exchange, job: Job)
    ensures Completes(k, x, job) <==> Delivers(k, x, job.key, job.dates, job.ready, job.conid, job.schedule)
  {
    CoversExactlyWhen(k.zone, k.days, x, job.dates, job.schedule);
    UsableExactlyWhen(k.zone, k.days, x);
  }

  /** The result is the first exchange that delivers, if any does. */
  predicate IsFirst(
    k: Context, xs: seq<Exchange>, r: Option<Exchange>, key: JobKey, dates: seq<int>, ready: int, conid: Option<int>,
    schedule: bool)
  {
    match r
    case None => forall i :: 0 <= i < |xs| ==> !Delivers(k, xs[i], key, dates, ready, conid, schedule)
    case Some(x) =>
      exists i :: 0 <= i < |xs| && xs[i] == x && Delivers(k, x, key, dates, ready, conid, schedule)
        && forall j :: 0 <= j < i ==> !Delivers(k, xs[j], key, dates, ready, conid, schedule)
  }

  /** The search stops at the first exchange that completes the job, or sees that none does. */
  lemma {:induction false} SuccessStops(k: Context, xs: seq<Exchange>, job: Job) returns (n: nat)
    ensures n <= |xs| && (n < |xs| <==> Success(k, xs, job).Some?)
    ensures n < |xs| ==> xs[n] == Success(k, xs, job).value && Completes(k, xs[n], job)
    ensures forall j :: 0 <= j < n ==> !Completes(k, xs[j], job)
  {
    if xs == [] || Completes(k, xs[0], job) {
      return 0;
    }
    var rest := SuccessStops(k, xs[1..], job);
    assert Success(k, xs, job) == Success(k, xs[1..], job);
    forall j | 0 <= j < rest + 1 ensures !Completes(k, xs[j], job) {
      if j > 0 {
        assert xs[j] == xs[1..][j - 1];
      }
    }
    n := rest + 1;
  }

  lemma {:induction false} SuccessIsFirst(k: Context, xs: seq<Exchange>, job: Job)
    ensures IsFirst(k, xs, Success(k, xs, job), job.key, job.dates, job.ready, job.conid, job.schedule)
  {
    var n := SuccessStops(k, xs, job);
    forall j | 0 <= j < |xs|
      ensures Completes(k, xs[j], job) <==>
        Delivers(k, xs[j], job.key, job.dates, job.ready, job.conid, job.schedule)
    {
      CompletesExactlyWhen(k, xs[j], job);
    }
  }

  lemma {:induction false} PinIsFinal(xs: seq<Exchange>, ys: seq<Exchange>, owner: Owner)
    requires xs <= ys && Pin(xs, owner).Some?
    ensures Pin(ys, owner) == Pin(xs, owner)
  {
    if !(Concerns(xs[0], owner) && QualifiedIdentity(xs[0]).Some?) {
      assert xs[1..] <= ys[1..];
      PinIsFinal(xs[1..], ys[1..], owner);
    }
  }

  lemma {:induction false} SuccessIsFinal(k: Context, xs: seq<Exchange>, ys: seq<Exchange>, job: Job)
    requires xs <= ys && Success(k, xs, job).Some?
    ensures Success(k, ys, job) == Success(k, xs, job)
  {
    if !Completes(k, xs[0], job) {
      assert xs[1..] <= ys[1..];
      SuccessIsFinal(k, xs[1..], ys[1..], job);
    }
  }

  // ---- the three stages of an owner -----------------------------------------------------------------

  /** The first exchange close after an instant, unless an unknown day comes first. */
  function CloseAfter(days: Days, received: int, day: int, left: nat): (r: Option<int>)
    ensures r.Some? ==>
      received < r.value && exists d :: DayOf(days, d).fact.Trading? && r == Some(DayOf(days, d).fact.closesAt)
    decreases left
  {
    if left == 0 then None
    else
      var current := DayOf(days, day);
      if current.fact == Unknown then None
      else if current.fact.Trading? && current.fact.closesAt > received then Some(current.fact.closesAt)
      else CloseAfter(days, received, day + 1, left - 1)
  }

  function RepeatAfter(k: Context, received: int): (r: Option<int>)
    ensures r.Some? ==>
      received < r.value && exists d :: DayOf(k.days, d).fact.Trading? && r == Some(DayOf(k.days, d).fact.closesAt)
  {
    CloseAfter(k.days, received, k.zone.localDay(received), CLOSE_SEARCH)
  }

  /** Of the 32 days from the response on, the first whose close comes after it, all days before being known. */
  predicate ClosesNext(k: Context, received: int, d: int) {
    var today := k.zone.localDay(received);
    && today <= d < today + 32
    && DayOf(k.days, d).fact.Trading? && received < DayOf(k.days, d).fact.closesAt
    && forall e :: today <= e < d ==>
         && DayOf(k.days, e).fact != Unknown
         && (DayOf(k.days, e).fact.Trading? ==> DayOf(k.days, e).fact.closesAt <= received)
  }

  lemma {:induction false} CloseAfterIsFirst(days: Days, received: int, day: int, left: nat, d: int)
    ensures var found := CloseAfter(days, received, day, left);
      var next := day <= d < day + left && DayOf(days, d).fact.Trading? && received < DayOf(days, d).fact.closesAt
        && forall e :: day <= e < d ==>
             && DayOf(days, e).fact != Unknown
             && (DayOf(days, e).fact.Trading? ==> DayOf(days, e).fact.closesAt <= received);
      next ==> found == Some(DayOf(days, d).fact.closesAt)
    decreases left
  {
    if left > 0 && day < d {
      CloseAfterIsFirst(days, received, day + 1, left - 1, d);
    }
  }

  lemma {:induction false} CloseAfterFinds(days: Days, received: int, day: int, left: nat) returns (d: int)
    requires CloseAfter(days, received, day, left).Some?
    ensures day <= d < day + left && DayOf(days, d).fact.Trading? && received < DayOf(days, d).fact.closesAt
    ensures forall e :: day <= e < d ==>
      && DayOf(days, e).fact != Unknown
      && (DayOf(days, e).fact.Trading? ==> DayOf(days, e).fact.closesAt <= received)
    decreases left
  {
    var fact := DayOf(days, day).fact;
    if fact.Trading? && fact.closesAt > received {
      return day;
    }
    d := CloseAfterFinds(days, received, day + 1, left - 1);
  }

  /** The repeat waits for the next exchange close, and is never due when an unknown day comes first. */
  lemma {:induction false} RepeatIsNextClose(k: Context, received: int, at: int)
    ensures RepeatAfter(k, received) == Some(at) <==>
      exists d :: ClosesNext(k, received, d) && DayOf(k.days, d).fact.closesAt == at
  {
    var today := k.zone.localDay(received);
    if RepeatAfter(k, received).Some? {
      var d := CloseAfterFinds(k.days, received, today, CLOSE_SEARCH);
      CloseAfterIsFirst(k.days, received, today, CLOSE_SEARCH, d);
      assert ClosesNext(k, received, d);
    }
    forall d | ClosesNext(k, received, d) ensures RepeatAfter(k, received) == Some(DayOf(k.days, d).fact.closesAt) {
      CloseAfterIsFirst(k.days, received, today, CLOSE_SEARCH, d);
    }
  }

  /** What is fixed about an owner before any response exists. */
  datatype Plan = Plan(
    owner: Owner, symbol: string, history: seq<int>, full: seq<int>, observedAt: int, cutoff: int, horizonClose: int)

  function InitialJob(p: Plan, conid: Option<int>): Job {
    Job(JobKey(p.owner, R1), p.symbol, p.history, p.observedAt, p.cutoff, conid, false)
  }

  function HorizonJob(k: Context, p: Plan, conid: Option<int>): Job {
    Job(JobKey(p.owner, R2), p.symbol, p.full, p.horizonClose, k.deadline, conid, false)
  }

  function RepeatJob(k: Context, p: Plan, conid: Option<int>, ready: int): Job {
    HorizonJob(k, p, conid).(key := JobKey(p.owner, R3), ready := ready)
  }

  datatype Stages = Stages(
    conid: Option<int>, first: Option<Exchange>, second: Option<Exchange>, repeatAt: Option<int>,
    third: Option<Exchange>)

  function StagesOf(k: Context, xs: seq<Exchange>, p: Plan): Stages {
    var conid := Pin(xs, p.owner);
    var second := Success(k, xs, HorizonJob(k, p, conid));
    var repeatAt := if second.Some? then RepeatAfter(k, second.value.source.responseAt.value) else None;
    Stages(
      conid,
      Success(k, xs, InitialJob(p, conid)),
      second,
      repeatAt,
      if repeatAt.Some? then Success(k, xs, RepeatJob(k, p, conid, repeatAt.value)) else None)
  }

  function StageJobs(k: Context, xs: seq<Exchange>, p: Plan): seq<Job> {
    var s := StagesOf(k, xs, p);
    [InitialJob(p, s.conid), HorizonJob(k, p, s.conid)]
    + if s.repeatAt.Some? then [RepeatJob(k, p, s.conid, s.repeatAt.value)] else []
  }

  /**
   R1 is the first exchange that delivers the history after the first observation, R2 the first that
   delivers history and horizon after the horizon's last close, and R3 the first that delivers the same
   again after the next exchange close that follows R2's response; all from the pinned contract.
   */
  lemma {:induction false} StagesBindExactly(k: Context, xs: seq<Exchange>, p: Plan)
    ensures var s := StagesOf(k, xs, p);
      && s.conid == Pin(xs, p.owner)
      && IsFirst(k, xs, s.first, JobKey(p.owner, R1), p.history, p.observedAt, s.conid, false)
      && IsFirst(k, xs, s.second, JobKey(p.owner, R2), p.full, p.horizonClose, s.conid, false)
      && (if s.second.Some? then s.repeatAt == RepeatAfter(k, s.second.value.source.responseAt.value)
          else s.repeatAt == None)
      && (if s.repeatAt == None then s.third == None
          else IsFirst(k, xs, s.third, JobKey(p.owner, R3), p.full, s.repeatAt.value, s.conid, false))
  {
    var s := StagesOf(k, xs, p);
    SuccessIsFirst(k, xs, InitialJob(p, s.conid));
    SuccessIsFirst(k, xs, HorizonJob(k, p, s.conid));
    if s.repeatAt.Some? {
      SuccessIsFirst(k, xs, RepeatJob(k, p, s.conid, s.repeatAt.value));
    }
  }

  /** No receipt bound to R1 was asked for before the case was seen, none to R2 before the horizon was over. */
  lemma {:induction false} BoundReceiptsAreTimely(k: Context, xs: seq<Exchange>, p: Plan)
    ensures var s := StagesOf(k, xs, p);
      && (s.first.Some? ==> p.observedAt <= s.first.value.attemptAt <= s.first.value.recordedAt < k.deadline)
      && (s.second.Some? ==> p.horizonClose <= s.second.value.attemptAt <= s.second.value.recordedAt < k.deadline)
      && (s.third.Some? ==>
            s.second.Some? && s.second.value.source.responseAt.Some?
            && s.second.value.source.responseAt.value < s.third.value.attemptAt
            && s.third.value.attemptAt <= s.third.value.recordedAt < k.deadline)
  {
    var s := StagesOf(k, xs, p);
    StagesBindExactly(k, xs, p);
    if s.first.Some? {
      UsableExactlyWhen(k.zone, k.days, s.first.value);
    }
    if s.second.Some? {
      UsableExactlyWhen(k.zone, k.days, s.second.value);
    }
    if s.third.Some? {
      UsableExactlyWhen(k.zone, k.days, s.third.value);
    }
  }

  predicate ProjectionStable(k: Context, s: Stages, p: Plan) {
    && s.second.Some? && s.third.Some?
    && Stable(Inspected(k.zone, k.days, s.second.value), Inspected(k.zone, k.days, s.third.value), p.full)
  }

  /** A later state that keeps every part an earlier one had decided. */
  predicate KeepsDecisions(a: Stages, b: Stages) {
    && (a.conid.Some? ==> b.conid == a.conid)
    && (a.first.Some? ==> b.first == a.first)
    && (a.second.Some? ==> b.second == a.second && b.repeatAt == a.repeatAt)
    && (a.third.Some? ==> b.third == a.third)
  }

  lemma {:induction false} StagesOnlyGrow(k: Context, xs: seq<Exchange>, ys: seq<Exchange>, p: Plan)
    requires xs <= ys
    ensures KeepsDecisions(StagesOf(k, xs, p), StagesOf(k, ys, p))
  {
    var a := StagesOf(k, xs, p);
    if a.conid.Some? {
      PinIsFinal(xs, ys, p.owner);
      if a.first.Some? {
        SuccessIsFinal(k, xs, ys, InitialJob(p, a.conid));
      }
      if a.second.Some? {
        SuccessIsFinal(k, xs, ys, HorizonJob(k, p, a.conid));
      }
      if a.third.Some? {
        SuccessIsFinal(k, xs, ys, RepeatJob(k, p, a.conid, a.repeatAt.value));
      }
    }
  }

  /**
   Frozen receipts: however an accepted journal is extended under the same calendar version, a
   pinned contract, every receipt already bound to R1, R2 or R3, and the answer to whether two
   bound projections are stable never change.
   */
  lemma {:induction false} ReceiptsAreFrozen(
    c: Journal.Codec<Payload>, k: Context, rows: seq<Row>, rows': seq<Row>, p: Plan)
    requires Journal.Accepted(c, rows) && Typed(rows') && rows <= rows'
    ensures Typed(rows)
    ensures var a, b := StagesOf(k, Exchanges(rows), p), StagesOf(k, Exchanges(rows'), p);
      && KeepsDecisions(a, b)
      && (a.second.Some? && a.third.Some? ==> (ProjectionStable(k, a, p) <==> ProjectionStable(k, b, p)))
  {
    ExchangesExtend(c, rows, rows');
    StagesOnlyGrow(k, Exchanges(rows), Exchanges(rows'), p);
  }

  /**
   The stability repeat is a second, later acquisition: some exchange close lies strictly after
   R2's response and no later than R3's attempt, and both carry the same single row for each date.
   */
  lemma {:induction false} StableMeansSeparated(k: Context, xs: seq<Exchange>, p: Plan)
    requires ProjectionStable(k, StagesOf(k, xs, p), p)
    ensures var s := StagesOf(k, xs, p);
      && s.second.value.source.responseAt.Some?
      && s.third.value.source.responseAt.Some?
      && var r2, r3 := s.second.value, s.third.value;
      && (exists d :: DayOf(k.days, d).fact.Trading?
            && r2.source.responseAt.value < DayOf(k.days, d).fact.closesAt <= r3.attemptAt)
      && r2.attemptAt <= r2.source.responseAt.value < r3.attemptAt <= r3.source.responseAt.value < k.deadline
      && r2 != r3
      && s.conid.Some? && QualifiedIdentity(r2) == QualifiedIdentity(r3) == s.conid
      && forall i :: 0 <= i < |p.full| ==>
           && r2.source.response.Bars? && r3.source.response.Bars?
           && BarsDated(r2.source.response.rows, p.full[i]) == BarsDated(r3.source.response.rows, p.full[i])
           && |BarsDated(r2.source.response.rows, p.full[i])| == 1
  {
    var s := StagesOf(k, xs, p);
    var r2, r3 := s.second.value, s.third.value;
    CoverageMeansOneSoundBar(k.zone, k.days, r2, p.full, 0);
    CoverageMeansOneSoundBar(k.zone, k.days, r3, p.full, 0);
    assert RepeatAfter(k, r2.source.responseAt.value) == s.repeatAt;
    var d :| DayOf(k.days, d).fact.Trading? && s.repeatAt == Some(DayOf(k.days, d).fact.closesAt);
    assert r2.source.responseAt.value < DayOf(k.days, d).fact.closesAt <= r3.attemptAt;
    forall i | 0 <= i < |p.full|
      ensures r2.source.response.Bars? && r3.source.response.Bars?
      ensures BarsDated(r2.source.response.rows, p.full[i]) == BarsDated(r3.source.response.rows, p.full[i])
      ensures |BarsDated(r2.source.response.rows, p.full[i])| == 1
    {
      StableMeansSameRows(k.zone, k.days, r2, r3, p.full, i);
    }
  }
}
