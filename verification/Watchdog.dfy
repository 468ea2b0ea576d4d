/**
 The watchdog's recovery pass: fence the scheduled worker, stop it, quarantine a corrupt store, and
 only then re-enable and start the worker.
 */
module Watchdog {
  import opened Prelude
  import opened Quarantine

  datatype Command = Querying | Disabling | Ending | Enabling | Starting

  /** One scheduler call as the watchdog sees it: a query with its answer, a command carried out, a failure. */
  datatype Call = Asked(running: bool) | Did(command: Command) | Refused(command: Command)

  /** The worker was seen running that many times in a row. */
  function Still(count: nat): seq<Call> {
    seq(count, _ => Asked(true))
  }

  /** A stop that worked: the worker was ended and seen idle within the given number of polls. */
  predicate Stopped(calls: seq<Call>, polls: nat) {
    exists k :: 0 <= k < polls && calls == [Did(Ending)] + Still(k) + [Asked(false)]
  }

  predicate StopFailed(calls: seq<Call>, polls: nat) {
    || calls == [Refused(Ending)]
    || calls == [Did(Ending)] + Still(polls)
    || exists k :: 0 <= k < polls && calls == [Did(Ending)] + Still(k) + [Refused(Querying)]
  }

  /** The worker was disabled first, and then seen idle or stopped. */
  predicate FencedBy(calls: seq<Call>, polls: nat) {
    || calls == [Did(Disabling), Asked(false)]
    || (|calls| > 2 && calls[..2] == [Did(Disabling), Asked(true)] && Stopped(calls[2..], polls))
  }

  predicate FenceFailed(calls: seq<Call>, polls: nat) {
    || calls == [Refused(Disabling)]
    || calls == [Did(Disabling), Refused(Querying)]
    || (|calls| > 2 && calls[..2] == [Did(Disabling), Asked(true)] && StopFailed(calls[2..], polls))
  }

  predicate StartFailed(calls: seq<Call>) {
    calls == [Refused(Enabling)] || calls == [Did(Enabling), Refused(Starting)]
  }

  /**
   The scheduled task.  Before every call someone else may have started an enabled task or stopped
   a running one; a disabled task is never started.
   */
  class Scheduler {
    const wishes: nat -> bool
    const accepts: nat -> bool
    var calls: nat
    var log: seq<Call>
    var enabled: bool
    var running: bool

    constructor (wishes: nat -> bool, accepts: nat -> bool, enabled: bool, running: bool)
      ensures this.wishes == wishes && this.accepts == accepts && this.enabled == enabled && this.running == running
      ensures log == []
    {
      this.wishes, this.accepts, this.calls, this.log := wishes, accepts, 0, [];
      this.enabled, this.running := enabled, running;
    }

    /** Disabled and idle: no worker can write. */
    predicate Fenced()
      reads this
    {
      !enabled && !running
    }

    method Elapse()
      modifies this
      ensures enabled == old(enabled) && log == old(log) && calls == old(calls) + 1
      ensures old(Fenced()) ==> Fenced()
    {
      running := if enabled then wishes(calls) else running && wishes(calls);
      calls := calls + 1;
    }

    /** Whether the task is running, unless the query itself fails. */
    method Query() returns (answer: Result<bool>)
      modifies this
      ensures enabled == old(enabled) && (answer.Ok? ==> answer.value == running)
      ensures log == old(log) + [if answer.Ok? then Asked(answer.value) else Refused(Querying)]
      ensures old(Fenced()) ==> Fenced()
    {
      Elapse();
      answer := if accepts(calls) then Ok(running) else Rejected("failed to query scheduled autopilot worker");
      log := log + [if answer.Ok? then Asked(running) else Refused(Querying)];
    }

    method Disable() returns (accepted: bool)
      modifies this
      ensures if accepted then !enabled else enabled == old(enabled)
      ensures old(Fenced()) ==> Fenced()
      ensures log == old(log) + [if accepted then Did(Disabling) else Refused(Disabling)]
    {
      Elapse();
      accepted := accepts(calls);
      log := log + [if accepted then Did(Disabling) else Refused(Disabling)];
      if accepted {
        enabled := false;
      }
    }

    /** Asks a running task to stop, which may take a while. */
    method End() returns (accepted: bool)
      modifies this
      ensures enabled == old(enabled)
      ensures old(Fenced()) ==> Fenced()
      ensures log == old(log) + [if accepted then Did(Ending) else Refused(Ending)]
    {
      Elapse();
      accepted := accepts(calls);
      log := log + [if accepted then Did(Ending) else Refused(Ending)];
    }

    method Enable() returns (accepted: bool)
      modifies this
      ensures if accepted then enabled else enabled == old(enabled)
      ensures !accepted && old(Fenced()) ==> Fenced()
      ensures log == old(log) + [if accepted then Did(Enabling) else Refused(Enabling)]
    {
      Elapse();
      accepted := accepts(calls);
      log := log + [if accepted then Did(Enabling) else Refused(Enabling)];
      if accepted {
        enabled := true;
      }
    }

    method Start() returns (accepted: bool)
      modifies this
      ensures enabled == old(enabled)
      ensures accepted && old(enabled) ==> running
      ensures log == old(log) + [if accepted then Did(Starting) else Refused(Starting)]
    {
      Elapse();
      accepted := accepts(calls);
      log := log + [if accepted then Did(Starting) else Refused(Starting)];
      if accepted && enabled {
        running := true;
      }
    }

    /** Stops a running worker that is already disabled; success means it has stopped. */
    method Stop(polls: nat) returns (stopped: bool)
      requires polls >= 1 && !enabled
      modifies this
      ensures !enabled && (stopped ==> Fenced())
      ensures old(log) <= log
      ensures if stopped then Stopped(log[|old(log)|..], polls) else StopFailed(log[|old(log)|..], polls)
    {
      ghost var before := log;
      var accepted := End();
      if !accepted {
        return false;
      }
      for attempt := 0 to polls
        invariant !enabled
        invariant log == before + ([Did(Ending)] + Still(attempt))
      {
        var still := Query();
        ghost var seen := [Did(Ending)] + Still(attempt) + [log[|log| - 1]];
        assert log == before + seen && log[|before|..] == seen;
        if still.Rejected? {
          return false;
        }
        if !still.value {
          return true;
        }
        assert Still(attempt) + [Asked(true)] == Still(attempt + 1);
        assert seen == [Did(Ending)] + Still(attempt + 1);
      }
      return false;
    }
  }

  datatype Report = Report(stale: bool, action: string, quarantined: seq<Path>)

  /** Files are moved only while no worker can write them. */
  method QuarantineFenced(sch: Scheduler, disk: Disk, t: Try) returns (outcome: Outcome)
    requires sch.Fenced()
    modifies disk
    ensures Ran(disk.files, outcome) == Attempt(old(disk.files), t.token, t.pid, t.left)
  {
    outcome := disk.QuarantineStore(t.token, t.pid, t.left);
  }

  const AWAIT_ATTEMPTS := 10

  predicate IsNew(id: Option<string>, previous: Option<string>) {
    id.Some? && id.value != "" && id != previous
  }

  /** Reads the store a few times until it names another runtime than before. */
  method AwaitWorkerRuntime(ids: nat -> Option<string>, previous: Option<string>) returns (appeared: bool)
    ensures appeared <==> exists attempt :: 0 <= attempt < 10 && IsNew(ids(attempt), previous)
  {
    for attempt := 0 to AWAIT_ATTEMPTS
      invariant forall a :: 0 <= a < attempt ==> !IsNew(ids(a), previous)
    {
      if IsNew(ids(attempt), previous) {
        return true;
      }
    }
    return false;
  }

  /** What reading the store gives before the pass and after the start; nothing is awaited without `awaited`. */
  datatype Sight = Sight(
    reading: Reading, now: int, staleAfter: int, previous: Option<string>, ids: nat -> Option<string>, awaited: bool)

  /** Ten readings of the store after the start all fail to name another runtime. */
  ghost predicate NoNewRuntime(sight: Sight) {
    sight.awaited && forall attempt :: 0 <= attempt < 10 ==> !IsNew(sight.ids(attempt), sight.previous)
  }

  /** Fence, enable and start, in this order. */
  predicate Recovered(calls: seq<Call>, polls: nat) {
    && |calls| >= 2
    && FencedBy(calls[..|calls| - 2], polls)
    && calls[|calls| - 2..] == [Did(Enabling), Did(Starting)]
  }

  /** The calls after the first look when the worker was fenced and then not restarted. */
  ghost predicate RestartFailed(calls: seq<Call>, sight: Sight, polls: nat) {
    exists i :: 0 <= i <= |calls| && FencedBy(calls[..i], polls) && NotStarted(calls[i..], sight)
  }

  ghost predicate NotStarted(calls: seq<Call>, sight: Sight) {
    StartFailed(calls) || (calls == [Did(Enabling), Did(Starting)] && NoNewRuntime(sight))
  }

  lemma {:induction false} RestartFailedBy(fencing: seq<Call>, starting: seq<Call>, sight: Sight, polls: nat)
    requires FencedBy(fencing, polls) && NotStarted(starting, sight)
    ensures RestartFailed(fencing + starting, sight, polls)
  {
    var calls := fencing + starting;
    assert calls[..|fencing|] == fencing && calls[|fencing|..] == starting;
  }

  /** A corrupt store had to be moved away and the attempt did not finish. */
  predicate QuarantineFailed(files: Files, t: Try, heartbeat: Heartbeat) {
    heartbeat.stale && heartbeat.corrupt && !Attempt(files, t.token, t.pid, t.left).outcome.Finished?
  }

  /** How far a recovery came that failed. */
  ghost predicate RecoveryFailed(
    calls: seq<Call>, files: Files, sight: Sight, t: Try, heartbeat: Heartbeat, polls: nat)
  {
    || FenceFailed(calls, polls)
    || (FencedBy(calls, polls) && QuarantineFailed(files, t, heartbeat))
    || (RestartFailed(calls, sight, polls) && !QuarantineFailed(files, t, heartbeat))
  }

  /** The calls of a pass that succeeds: a look at a live worker, or a look and a recovery. */
  ghost predicate Passed(calls: seq<Call>, stale: bool, left: bool, polls: nat) {
    if left then !stale && calls == [Asked(true)]
    else
      && calls != []
      && (calls[0] == Asked(false) || (stale && calls[0] == Asked(true)))
      && Recovered(calls[1..], polls)
  }

  /** Why a pass failed, and how far it had come. */
  ghost predicate PassFailed(calls: seq<Call>, files: Files, sight: Sight, t: Try, polls: int) {
    var heartbeat := HeartbeatState(files, sight.reading, sight.now, sight.staleAfter);
    if polls < 1 || heartbeat.Rejected? then calls == []
    else
      || calls == [Refused(Querying)]
      || (&& calls != []
          && (calls[0] == Asked(false) || (heartbeat.value.stale && calls[0] == Asked(true)))
          && RecoveryFailed(calls[1..], files, sight, t, heartbeat.value, polls))
  }

  /**
   One watchdog pass: it reads the heartbeat, fences, stops, quarantines, enables, starts and awaits.
   `unfinished` tells whether it had to quarantine and did not finish.
   */
  method RunWatchdog(sch: Scheduler, disk: Disk, sight: Sight, t: Try, stopPolls: int)
    returns (r: Result<Report>, unfinished: bool)
    modifies sch, disk
    ensures var heartbeat := HeartbeatState(old(disk.files), sight.reading, sight.now, sight.staleAfter);
      && (heartbeat.Rejected? || stopPolls < 1 ==> r.Rejected? && disk.files == old(disk.files))
      && (disk.files == old(disk.files)
          || (heartbeat.Ok? && heartbeat.value.stale && heartbeat.value.corrupt
              && disk.files == Attempt(old(disk.files), t.token, t.pid, t.left).files))
      && (r.Ok? ==>
            && heartbeat.Ok? && r.value.stale == heartbeat.value.stale
            && r.value.action in (if r.value.stale then {"restart"} else {"start", "already_running"})
            && if heartbeat.value.stale && heartbeat.value.corrupt then
              Attempt(old(disk.files), t.token, t.pid, t.left) == Ran(disk.files, Finished(r.value.quarantined))
            else r.value.quarantined == [])
    ensures unfinished ==> r.Rejected? && sch.Fenced()
    ensures r.Ok? && r.value.action != "already_running" ==> sch.enabled && sch.running
    ensures r.Ok? && r.value.action == "already_running" ==> sch.running && sch.enabled == old(sch.enabled)
    ensures r.Ok? && r.value.action != "already_running" && sight.awaited ==>
      exists attempt :: 0 <= attempt < 10 && IsNew(sight.ids(attempt), sight.previous)
    ensures old(sch.log) <= sch.log
    ensures var calls := sch.log[|old(sch.log)|..];
      if r.Ok? then stopPolls >= 1 && Passed(calls, r.value.stale, r.value.action == "already_running", stopPolls)
      else PassFailed(calls, old(disk.files), sight, t, stopPolls)
  {
    if stopPolls < 1 {
      return Rejected("stop_poll_attempts must be positive"), false;
    }
    var read := HeartbeatState(disk.files, sight.reading, sight.now, sight.staleAfter);
    if read.Rejected? {
      return Rejected(read.reason), false;
    }
    var heartbeat := read.value;
    var workerRunning := sch.Query();
    if workerRunning.Rejected? {
      return Rejected(workerRunning.reason), false;
    }
    if !heartbeat.stale && workerRunning.value {
      return Ok(Report(false, "already_running", [])), false;
    }
    var moved: Result<seq<Path>>;
    moved, unfinished := Recover(sch, disk, sight, t, heartbeat, stopPolls);
    if moved.Rejected? {
      return Rejected(moved.reason), unfinished;
    }
    return Ok(Report(heartbeat.stale, if heartbeat.stale then "restart" else "start", moved.value)), false;
  }

  /** Fences and stops the worker, moves a corrupt store away, and starts the worker again. */
  method Recover(sch: Scheduler, disk: Disk, sight: Sight, t: Try, heartbeat: Heartbeat, stopPolls: int)
    returns (moved: Result<seq<Path>>, unfinished: bool)
    requires stopPolls >= 1
    modifies sch, disk
    ensures disk.files == old(disk.files)
      || (heartbeat.stale && heartbeat.corrupt
          && disk.files == Attempt(old(disk.files), t.token, t.pid, t.left).files)
    ensures moved.Ok? ==>
      if heartbeat.stale && heartbeat.corrupt then
        Attempt(old(disk.files), t.token, t.pid, t.left) == Ran(disk.files, Finished(moved.value))
      else moved.value == []
    ensures unfinished ==> moved.Rejected? && sch.Fenced()
    ensures moved.Ok? ==> sch.enabled && sch.running
    ensures moved.Ok? && sight.awaited ==>
      exists attempt :: 0 <= attempt < 10 && IsNew(sight.ids(attempt), sight.previous)
    ensures old(sch.log) <= sch.log
    ensures var calls := sch.log[|old(sch.log)|..];
      if moved.Ok? then Recovered(calls, stopPolls)
      else RecoveryFailed(calls, old(disk.files), sight, t, heartbeat, stopPolls)
  {
    ghost var before := sch.log;
    unfinished := false;
    var fenced := FenceAndStop(sch, stopPolls);
    if fenced.Rejected? {
      return Rejected(fenced.reason), false;
    }
    ghost var fencing := sch.log[|before|..];
    var files: seq<Path> := [];
    if heartbeat.stale && heartbeat.corrupt {
      var outcome := QuarantineFenced(sch, disk, t);
      if !outcome.Finished? {
        return Rejected("quarantine did not finish"), true;
      }
      files := outcome.moved;
    }
    var started := StartAgain(sch, sight);
    ghost var starting := sch.log[|before| + |fencing|..];
    assert sch.log[|before|..] == fencing + starting;
    if started.Rejected? {
      RestartFailedBy(fencing, starting, sight, stopPolls);
      return Rejected(started.reason), false;
    }
    assert (fencing + starting)[..|fencing|] == fencing;
    return Ok(files), false;
  }

  /** Disables the task first, so that nothing restarts it, and then makes sure it is not running. */
  method FenceAndStop(sch: Scheduler, stopPolls: int) returns (r: Result<()>)
    requires stopPolls >= 1
    modifies sch
    ensures r.Ok? ==> sch.Fenced()
    ensures old(sch.log) <= sch.log
    ensures var calls := sch.log[|old(sch.log)|..];
      if r.Ok? then FencedBy(calls, stopPolls) else FenceFailed(calls, stopPolls)
  {
    var accepted := sch.Disable();
    if !accepted {
      return Rejected("failed to fence scheduled autopilot worker");
    }
    var workerRunning := sch.Query();
    if workerRunning.Rejected? {
      return Rejected(workerRunning.reason);
    }
    if workerRunning.value {
      var stopped := sch.Stop(stopPolls);
      if !stopped {
        return Rejected("stale scheduled autopilot worker did not stop");
      }
    }
    return Ok(());
  }

  /** Enables and starts the task and, if that is asked for, awaits the new runtime. */
  method StartAgain(sch: Scheduler, sight: Sight) returns (r: Result<()>)
    modifies sch
    ensures r.Ok? ==> sch.enabled && sch.running
    ensures r.Ok? && sight.awaited ==>
      exists attempt :: 0 <= attempt < 10 && IsNew(sight.ids(attempt), sight.previous)
    ensures old(sch.log) <= sch.log
    ensures var calls := sch.log[|old(sch.log)|..];
      if r.Ok? then calls == [Did(Enabling), Did(Starting)] else NotStarted(calls, sight)
  {
    var accepted := sch.Enable();
    if !accepted {
      return Rejected("failed to re-enable scheduled autopilot worker");
    }
    accepted := sch.Start();
    if !accepted {
      return Rejected("failed to start scheduled autopilot worker");
    }
    if sight.awaited {
      var appeared := AwaitWorkerRuntime(sight.ids, sight.previous);
      if !appeared {
        return Rejected("worker did not publish a new runtime");
      }
    }
    return Ok(());
  }

  /** A pass that succeeds while a quarantine was unfinished has finished it. */
  method ResumeByWatchdog(
    sch: Scheduler, disk: Disk, sight: Sight, t: Try, stopPolls: int, ghost original: Files, ghost token: string)
    returns (r: Result<Report>)
    requires Progress(original, disk.files, token)
    modifies sch, disk
    ensures r.Ok? ==> Complete(original, disk.files, token) && sch.enabled && sch.running
    ensures r.Rejected? ==> Progress(original, disk.files, token) || Complete(original, disk.files, token)
  {
    ResumeKeeps(original, disk.files, token, t.left);
    var unfinished: bool;
    r, unfinished := RunWatchdog(sch, disk, sight, t, stopPolls);
  }
}
