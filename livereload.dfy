/**
 * The `Livereload` object (internal/livereload/livereload.go) and the two
 * loops of its `Run`: the listener goroutine that debounces watcher events
 * into the restart slot, and the restart loop that receives from the slot
 * and runs a cycle. The goroutines are flattened into calls: `Listen` is one
 * turn of the listener, `Restart` one turn of the restart loop, in whatever
 * order the environment chooses.
 */
module Livereload {
  import opened Events
  import opened Wrappers
  import opened Health
  import Debounce
  import Supervisor
  import Hub

  /** time.Duration units, in nanoseconds. */
  const Millisecond: int := 1_000_000
  const Second: int := 1_000 * Millisecond

  /** The defaults NewLivereload sets. */
  const DefaultDebounceTime: int := 100 * Millisecond
  const DefaultHealth: HealthConfig := HealthConfig("", 100 * Millisecond, 5 * Second, 50 * Millisecond)

  class App {
    const ignore: IgnoreMap
    /** restartCh: the buffered channel of capacity one. */
    const slot: Debounce.RestartSlot
    /** The listener goroutine with its debounce timer. */
    const listener: Debounce.Debouncer
    /** BuildCmd, RunCmd, the health settings and currentProcess. */
    const supervisor: Supervisor.Supervisor
    const hub: Hub.ReloadHub
    /** How many timer fires found room in the slot. */
    ghost var accepted: nat
    /** How many restart cycles have run. */
    ghost var cycles: nat

    /**
     * The parts are wired together, and every cycle consumed one signal:
     * the initial one or a fire that was accepted. The signal still in the
     * slot, if any, is the one not consumed yet.
     */
    ghost predicate Valid()
      reads this, slot
    {
      listener.slot == slot && supervisor.hub == hub && listener.ignore == ignore
      && cycles + (if slot.full then 1 else 0) == 1 + accepted
    }

    /**
     * NewLivereload with its defaults (no health URL, a restart delay of
     * 100ms, a health timeout of 5s and interval of 50ms, a debounce of
     * 100ms, a fresh hub), followed by the start of `Run`: the restart
     * channel is made and the initial signal is put in it.
     */
    constructor (build: string, run: string, ignore: IgnoreMap)
      ensures Valid()
      ensures fresh(slot) && fresh(listener) && fresh(supervisor) && fresh(hub)
      ensures this.ignore == ignore && listener.debounce == DefaultDebounceTime
      ensures listener.State() == Debounce.Timer(true, None)
      ensures supervisor.build == build && supervisor.run == run && supervisor.health == DefaultHealth
      ensures supervisor.current == None && supervisor.trace == []
      ensures hub.clients == {}
      ensures slot.full && cycles == 0 && accepted == 0
    {
      this.ignore := ignore;
      var h := new Hub.ReloadHub();
      var s := new Debounce.RestartSlot();
      hub := h;
      slot := s;
      listener := new Debounce.Debouncer(ignore, DefaultDebounceTime, s);
      supervisor := new Supervisor.Supervisor(build, run, DefaultHealth, h);
      accepted := 0;
      cycles := 0;
      new;
      var _ := slot.TrySend();  // restartCh <- true: the initial run
    }

    /**
     * One turn of the listener goroutine: an event, an error, a closed
     * channel or the clock reaching a deadline. Only a fire that finds the
     * slot empty adds a signal; nothing of the supervisor or the hub changes.
     */
    method Listen(i: Debounce.Input) returns (fired: bool, dropped: bool)
      requires Valid()
      modifies this, listener, slot
      ensures Valid()
      ensures listener.State() == Debounce.Step(ignore, listener.debounce, old(listener.State()), i).timer
      ensures fired == Debounce.Step(ignore, listener.debounce, old(listener.State()), i).fired
      ensures dropped == (fired && old(slot.full))
      ensures slot.full == (old(slot.full) || fired)
      ensures accepted == old(accepted) + (if fired && !dropped then 1 else 0) && cycles == old(cycles)
    {
      fired, dropped := listener.Deliver(i);
      if fired && !dropped {
        accepted := accepted + 1;
      }
    }

    /**
     * One turn of `for range restartCh`: with a signal in the slot, take it
     * and run one cycle; with none, the loop is still blocked and nothing
     * happens. The hub sees the "reload" broadcast exactly when the cycle
     * reloads, and is left untouched otherwise.
     */
    method Restart(o: Supervisor.CycleOracle, writeOk: Hub.Client -> bool) returns (ran: bool, reloaded: bool)
      requires Valid()
      modifies this, slot, supervisor, hub
      ensures Valid()
      ensures ran == old(slot.full) && !slot.full
      ensures cycles == old(cycles) + (if ran then 1 else 0) && accepted == old(accepted)
      ensures ran ==> var r := Supervisor.CycleEffect(supervisor.build, supervisor.run, old(supervisor.current), o, None);
                      supervisor.trace == old(supervisor.trace) + r.actions && supervisor.current == r.next
      ensures reloaded == (ran && Supervisor.Succeeds(supervisor.build, o, None))
      ensures !ran ==> supervisor.trace == old(supervisor.trace) && supervisor.current == old(supervisor.current)
      ensures reloaded ==> hub.clients == old(hub.clients) - Hub.Failed(old(hub.clients), writeOk)
                           && hub.closed == old(hub.closed) + Hub.Failed(old(hub.clients), writeOk)
                           && forall c :: hub.Received(c) == if c in old(hub.clients) && writeOk(c)
                                                           then old(hub.Received(c)) + [Supervisor.ReloadMessage]
                                                           else old(hub.Received(c))
      ensures !reloaded ==> hub.clients == old(hub.clients) && hub.closed == old(hub.closed) && hub.inbox == old(hub.inbox)
    {
      ran := slot.Receive();
      reloaded := false;
      if ran {
        reloaded := supervisor.RestartCycle(o, writeOk);
        cycles := cycles + 1;
      }
    }
  }

  /**
   * The first cycle of `Run` needs no event: right after construction the
   * slot holds the initial signal, so the restart loop runs a cycle that
   * builds and starts without killing anything.
   */
  method InitialRun(build: string, run: string, ignore: IgnoreMap, o: Supervisor.CycleOracle, writeOk: Hub.Client -> bool)
    returns (ran: bool, ghost actions: seq<Supervisor.Action>)
    ensures ran
    ensures actions == Supervisor.LaunchActions(build, run, o, None)
    ensures forall i :: 0 <= i < |actions| ==> !actions[i].Kill? && !actions[i].Wait?
  {
    var app := new App(build, run, ignore);
    var reloaded;
    ran, reloaded := app.Restart(o, writeOk);
    actions := app.supervisor.trace;
    assert actions == Supervisor.CycleEffect(build, run, None, o, None).actions;
    Supervisor.StopBeforeLaunch(build, run, None, o, None);
  }
}
