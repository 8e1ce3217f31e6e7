/**
 * One restart cycle of `Livereload.Run` (internal/livereload/livereload.go,
 * the body of `for range restartCh`): stop the current process, build, start
 * the new one, wait for health and announce the reload. The command runner
 * and the old process are replaced by an oracle of their outcomes; what the
 * cycle does is recorded as a trace of actions.
 */
module Supervisor {
  import opened Wrappers
  import opened GoStrings
  import opened Health
  import Hub

  /** A process handle returned by Runner.Start. */
  datatype Proc = Proc(id: nat)

  /** What the old process, the runner and the health endpoint report during one cycle. */
  datatype CycleOracle = CycleOracle(
    killErr: Option<string>,   // currentProcess.Kill()
    waitErr: Option<string>,   // currentProcess.Wait()
    buildErr: Option<string>,  // Runner.Run(BuildCmd)
    start: Result<Proc>,       // Runner.Start(RunCmd)
    polls: seq<Poll>)          // responses to the health polls

  /** The calls a cycle makes and the messages it logs, in order. */
  datatype Action =
    | Kill(p: Proc)
    | LogKillError(err: string)    // "Failed to kill process"
    | Wait(p: Proc)
    | LogWaitError(err: string)    // "Process finished with error"
    | Build(cmd: string)
    | BuildFailed(err: string)     // ">> Build failed"
    | Start(cmd: string)
    | RunFailed(err: string)       // ">> Run failed"
    | AwaitHealth
    | HealthFailed(err: string)    // ">> Health check failed"
    | Broadcast(msg: string)

  const ReloadMessage: string := "reload"

  /** The messages the kill and wait filters look for. */
  const AlreadyFinished: string := "process already finished"
  const OsAlreadyFinished: string := "os: " + AlreadyFinished
  const SignalKilled: string := "signal: killed"

  /** A Kill error is logged unless it says the process had already finished. */
  predicate KillErrorLogged(err: string) {
    !Contains(err, AlreadyFinished) && !Contains(err, OsAlreadyFinished)
  }

  /** A Wait error is logged unless it is the expected "signal: killed" or "process already finished". */
  predicate WaitErrorLogged(err: string) {
    !Contains(err, SignalKilled) && !Contains(err, AlreadyFinished)
  }

  /**
   * The second test of the kill filter adds nothing: any message containing
   * "os: process already finished" contains "process already finished".
   */
  lemma KillFilterIsOneTest(err: string)
    ensures KillErrorLogged(err) <==> !Contains(err, AlreadyFinished)
  {
    assert OsAlreadyFinished[4..] == AlreadyFinished;
    assert OccursAt(OsAlreadyFinished, AlreadyFinished, 4);
    if Contains(err, OsAlreadyFinished) {
      ContainsTransitive(err, OsAlreadyFinished, AlreadyFinished);
    }
  }

  /** The errors that follow a forced kill are exactly the ones kept out of the log. */
  lemma ExpectedErrorsNotLogged(prefix: string, suffix: string)
    ensures !KillErrorLogged(prefix + AlreadyFinished + suffix)
    ensures !WaitErrorLogged(prefix + SignalKilled + suffix)
    ensures !WaitErrorLogged(prefix + AlreadyFinished + suffix)
  {
    var s1 := prefix + AlreadyFinished + suffix;
    assert OccursAt(s1, AlreadyFinished, |prefix|);
    var s2 := prefix + SignalKilled + suffix;
    assert OccursAt(s2, SignalKilled, |prefix|);
  }

  /** Kill and Wait the previous process, logging only the unexpected errors. */
  function StopActions(p: Proc, o: CycleOracle): (r: seq<Action>)
    ensures |r| >= 2 && r[0] == Kill(p) && Wait(p) in r
  {
    [Kill(p)]
    + (if o.killErr.Some? && KillErrorLogged(o.killErr.value) then [LogKillError(o.killErr.value)] else [])
    + [Wait(p)]
    + (if o.waitErr.Some? && WaitErrorLogged(o.waitErr.value) then [LogWaitError(o.waitErr.value)] else [])
  }

  /** Stopping starts with Kill, includes Wait, and neither launches nor broadcasts. */
  lemma StopActionsShape(p: Proc, o: CycleOracle)
    ensures var a := StopActions(p, o);
            && |a| >= 2 && a[0] == Kill(p) && Wait(p) in a
            && (forall i :: 0 <= i < |a| ==> !a[i].Broadcast? && !IsLaunch(a[i]) && !a[i].Start?)
  {
    var k: seq<Action> := if o.killErr.Some? && KillErrorLogged(o.killErr.value) then [LogKillError(o.killErr.value)] else [];
    var w: seq<Action> := if o.waitErr.Some? && WaitErrorLogged(o.waitErr.value) then [LogWaitError(o.waitErr.value)] else [];
    var a := [Kill(p)] + k + [Wait(p)] + w;
    assert StopActions(p, o) == a;
    assert a[1 + |k|] == Wait(p);
  }

  datatype CycleResult = CycleResult(actions: seq<Action>, next: Option<Proc>)

  /** The build step fails: a build command is set and running it returned an error. */
  predicate BuildFails(build: string, o: CycleOracle) {
    build != "" && o.buildErr.Some?
  }

  /** The cycle gets through build and start with no error, the reload case. */
  predicate Succeeds(build: string, o: CycleOracle, healthErr: Option<string>) {
    !BuildFails(build, o) && o.start.Ok? && healthErr.None?
  }

  /** What the cycle does after stopping the old process: build, start, health wait, broadcast. */
  function LaunchActions(build: string, run: string, o: CycleOracle, healthErr: Option<string>): seq<Action>
  {
    if BuildFails(build, o) then
      [Build(build), BuildFailed(o.buildErr.value)]
    else
      (if build != "" then [Build(build)] else [])
      + match o.start
        case Err(e) => [Start(run), RunFailed(e)]
        case Ok(_) =>
          if healthErr.Some? then [Start(run), AwaitHealth, HealthFailed(healthErr.value)]
          else [Start(run), AwaitHealth, Broadcast(ReloadMessage)]
  }

  /**
   * The whole effect of one cycle on the trace and on `currentProcess`, given
   * the current process, the oracle and the error waitForHealth returned.
   * `currentProcess` changes only once Start succeeded.
   */
  function CycleEffect(build: string, run: string, current: Option<Proc>, o: CycleOracle, healthErr: Option<string>): (r: CycleResult)
    ensures r.next == current || (!BuildFails(build, o) && o.start.Ok? && r.next == Some(o.start.value))
  {
    var stop := if current.Some? then StopActions(current.value, o) else [];
    var next := if BuildFails(build, o) || o.start.Err? then current else Some(o.start.value);
    CycleResult(stop + LaunchActions(build, run, o, healthErr), next)
  }

  predicate IsLaunch(a: Action) {
    a.Build? || a.Start?
  }

  /**
   * With a current process, the cycle begins by killing it and waits for it
   * before any build or start; without one it neither kills nor waits.
   */
  lemma StopBeforeLaunch(build: string, run: string, current: Option<Proc>, o: CycleOracle, healthErr: Option<string>)
    ensures var a := CycleEffect(build, run, current, o, healthErr).actions;
            && (current.Some? ==> a[0] == Kill(current.value)
                                  && forall i :: 0 <= i < |a| && IsLaunch(a[i]) ==> Wait(current.value) in a[..i])
            && (current.None? ==> forall i :: 0 <= i < |a| ==> !a[i].Kill? && !a[i].Wait?)
  {
    var a := CycleEffect(build, run, current, o, healthErr).actions;
    var l := LaunchActions(build, run, o, healthErr);
    if current.Some? {
      var stop := StopActions(current.value, o);
      StopActionsShape(current.value, o);
      assert a == stop + l;
      forall i | 0 <= i < |a| && IsLaunch(a[i])
        ensures Wait(current.value) in a[..i]
      {
        assert i >= |stop|;
        assert a[..i][..|stop|] == stop;
      }
    } else {
      assert a == l;
    }
  }

  /** With no build command, no build runs. */
  lemma NoBuildCommandNoBuild(run: string, current: Option<Proc>, o: CycleOracle, healthErr: Option<string>)
    ensures var a := CycleEffect("", run, current, o, healthErr).actions;
            forall i :: 0 <= i < |a| ==> !a[i].Build?
  {
    var l := LaunchActions("", run, o, healthErr);
    assert forall i :: 0 <= i < |l| ==> !l[i].Build?;
    if current.Some? {
      StopActionsShape(current.value, o);
      assert CycleEffect("", run, current, o, healthErr).actions == StopActions(current.value, o) + l;
    }
  }

  /**
   * A failed build ends the cycle: no start, no broadcast, and the process
   * handle that was just killed stays current.
   */
  lemma BuildFailureAborts(build: string, run: string, current: Option<Proc>, o: CycleOracle, healthErr: Option<string>)
    requires BuildFails(build, o)
    ensures var r := CycleEffect(build, run, current, o, healthErr);
            && r.next == current
            && forall i :: 0 <= i < |r.actions| ==> !r.actions[i].Start? && !r.actions[i].Broadcast?
  {
  }

  /** A failed start leaves `currentProcess` as it was and announces nothing. */
  lemma StartFailureAborts(build: string, run: string, current: Option<Proc>, o: CycleOracle, healthErr: Option<string>)
    requires !BuildFails(build, o) && o.start.Err?
    ensures var r := CycleEffect(build, run, current, o, healthErr);
            && r.next == current
            && forall i :: 0 <= i < |r.actions| ==> !r.actions[i].Broadcast?
  {
  }

  /** The number of broadcasts in a trace. */
  function Broadcasts(a: seq<Action>): nat
  {
    if a == [] then 0 else (if a[0].Broadcast? then 1 else 0) + Broadcasts(a[1..])
  }

  lemma {:induction false} BroadcastsAppend(a: seq<Action>, b: seq<Action>)
    ensures Broadcasts(a + b) == Broadcasts(a) + Broadcasts(b)
  {
    if a == [] {
      assert a + b == b;
    } else {
      assert (a + b)[1..] == a[1..] + b;
      BroadcastsAppend(a[1..], b);
    }
  }

  lemma {:induction false} NoBroadcasts(a: seq<Action>)
    requires forall i :: 0 <= i < |a| ==> !a[i].Broadcast?
    ensures Broadcasts(a) == 0
  {
    if a != [] {
      NoBroadcasts(a[1..]);
    }
  }

  /** The launch part broadcasts once on success and never otherwise; success ends in Start, AwaitHealth, Broadcast. */
  lemma LaunchBroadcasts(build: string, run: string, o: CycleOracle, healthErr: Option<string>)
    ensures var l := LaunchActions(build, run, o, healthErr);
            && Broadcasts(l) == (if Succeeds(build, o, healthErr) then 1 else 0)
            && (Succeeds(build, o, healthErr) ==> l[|l| - 3..] == [Start(run), AwaitHealth, Broadcast(ReloadMessage)])
  {
    var l := LaunchActions(build, run, o, healthErr);
    if Succeeds(build, o, healthErr) {
      var b: seq<Action> := if build != "" then [Build(build)] else [];
      var front := b + [Start(run), AwaitHealth];
      var last := Broadcast(ReloadMessage);
      assert l == front + [last];
      NoBroadcasts(front);
      BroadcastsAppend(front, [last]);
      assert [last][1..] == [];
      assert l[|l| - 3..] == [Start(run), AwaitHealth, last];
    } else {
      NoBroadcasts(l);
    }
  }

  /**
   * A cycle broadcasts at most once, and exactly once when build and start
   * succeed and the health gate returned no error. Then the new process is
   * current and the broadcast of "reload" is the last action, right after
   * the health wait, which comes right after the start.
   */
  lemma BroadcastExactlyOnSuccess(build: string, run: string, current: Option<Proc>, o: CycleOracle, healthErr: Option<string>)
    ensures var r := CycleEffect(build, run, current, o, healthErr);
            && Broadcasts(r.actions) == (if Succeeds(build, o, healthErr) then 1 else 0)
            && (Succeeds(build, o, healthErr) ==>
                  && r.next == Some(o.start.value)
                  && |r.actions| >= 3
                  && r.actions[|r.actions| - 3] == Start(run)
                  && r.actions[|r.actions| - 2] == AwaitHealth
                  && r.actions[|r.actions| - 1] == Broadcast(ReloadMessage))
  {
    var l := LaunchActions(build, run, o, healthErr);
    LaunchBroadcasts(build, run, o, healthErr);
    if current.Some? {
      var stop := StopActions(current.value, o);
      StopActionsShape(current.value, o);
      NoBroadcasts(stop);
      BroadcastsAppend(stop, l);
      var a := stop + l;
      assert CycleEffect(build, run, current, o, healthErr).actions == a;
      if Succeeds(build, o, healthErr) {
        assert a[|a| - 3..] == l[|l| - 3..];
      }
    } else {
      assert CycleEffect(build, run, current, o, healthErr).actions == l;
    }
  }

  /**
   * After a failed build the killed handle is still current, so the next
   * cycle kills and waits on it again before doing anything else.
   */
  lemma KilledHandleKilledAgain(build: string, run: string, p: Proc, o1: CycleOracle, o2: CycleOracle, h1: Option<string>, h2: Option<string>)
    requires BuildFails(build, o1)
    ensures var first := CycleEffect(build, run, Some(p), o1, h1);
            var second := CycleEffect(build, run, first.next, o2, h2);
            second.actions[0] == Kill(p) && Wait(p) in second.actions
  {
  }

  /**
   * `Livereload`'s process supervisor: the build and run commands, the
   * health-check settings, the hub that receives the reload broadcast and
   * `currentProcess`, with the trace of everything the cycles did.
   */
  class Supervisor {
    const build: string
    const run: string
    const health: HealthConfig
    const hub: Hub.ReloadHub
    var current: Option<Proc>
    ghost var trace: seq<Action>

    constructor (build: string, run: string, health: HealthConfig, hub: Hub.ReloadHub)
      ensures this.build == build && this.run == run && this.health == health && this.hub == hub
      ensures current == None && trace == []
    {
      this.build := build;
      this.run := run;
      this.health := health;
      this.hub := hub;
      current := None;
      trace := [];
    }

    /**
     * One cycle. The trace grows by exactly the cycle's actions and the
     * current process becomes the one `CycleEffect` names; waitForHealth
     * never returns an error, so its failure branch is never taken. The hub
     * sees the broadcast exactly when the cycle reloads.
     */
    method RestartCycle(o: CycleOracle, writeOk: Hub.Client -> bool) returns (reloaded: bool)
      modifies this, hub
      ensures var r := CycleEffect(build, run, old(current), o, None);
              trace == old(trace) + r.actions && current == r.next
      ensures reloaded == Succeeds(build, o, None)
      ensures reloaded ==> hub.clients == old(hub.clients) - Hub.Failed(old(hub.clients), writeOk)
                           && hub.closed == old(hub.closed) + Hub.Failed(old(hub.clients), writeOk)
                           && forall c :: hub.Received(c) == if c in old(hub.clients) && writeOk(c)
                                                           then old(hub.Received(c)) + [ReloadMessage]
                                                           else old(hub.Received(c))
      ensures !reloaded ==> hub.clients == old(hub.clients) && hub.closed == old(hub.closed) && hub.inbox == old(hub.inbox)
    {
      if current.Some? {
        StopCurrent(current.value, o);
      }
      var started := Launch(o);
      reloaded := started.Some?;
      if started.Some? {
        current := started;
        hub.Broadcast(ReloadMessage, writeOk);
      }
    }

    /**
     * Build, start and health wait. Returns the new process once Start has
     * succeeded; the "reload" broadcast is then the last action traced.
     */
    method Launch(o: CycleOracle) returns (started: Option<Proc>)
      modifies this`trace
      ensures trace == old(trace) + LaunchActions(build, run, o, None)
      ensures started == if BuildFails(build, o) || o.start.Err? then None else Some(o.start.value)
    {
      if build != "" {
        trace := trace + [Build(build)];
        if o.buildErr.Some? {
          trace := trace + [BuildFailed(o.buildErr.value)];
          return None;  // don't run if the build fails
        }
      }
      ghost var built := trace;
      trace := trace + [Start(run)];
      if o.start.Err? {
        trace := trace + [RunFailed(o.start.error)];
        assert trace == built + [Start(run), RunFailed(o.start.error)];
        return None;
      }
      started := Some(o.start.value);
      trace := trace + [AwaitHealth];
      var healthErr, _ := WaitForHealth(health, o.polls);
      if healthErr.Some? {
        assert false;  // waitForHealth always returns nil
      }
      trace := trace + [Broadcast(ReloadMessage)];
      assert trace == built + [Start(run), AwaitHealth, Broadcast(ReloadMessage)];
    }

    /** Kills and then waits on `p`, logging only the errors the filters let through. */
    method StopCurrent(p: Proc, o: CycleOracle)
      modifies this`trace
      ensures trace == old(trace) + StopActions(p, o)
    {
      trace := trace + [Kill(p)];
      if o.killErr.Some? && KillErrorLogged(o.killErr.value) {
        trace := trace + [LogKillError(o.killErr.value)];
      }
      trace := trace + [Wait(p)];
      if o.waitErr.Some? && WaitErrorLogged(o.waitErr.value) {
        trace := trace + [LogWaitError(o.waitErr.value)];
      }
    }
  }
}
