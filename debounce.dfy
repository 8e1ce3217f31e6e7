/**
 * The restart trigger of `Livereload.Run` (internal/livereload/livereload.go):
 * the capacity-1 restart channel and the listener goroutine that debounces
 * file events into it. Goroutines and the timer are flattened into explicit
 * inputs on a discrete clock: a `Tick(now)` input is the clock reaching `now`,
 * when an armed timer whose deadline has passed fires.
 */
module Debounce {
  import opened Wrappers
  import opened Events

  /**
   * `restartCh := make(chan bool, 1)`: a slot that holds at most one pending
   * signal. A send that finds it full is dropped, not queued.
   */
  class RestartSlot {
    var full: bool

    constructor ()
      ensures !full
    {
      full := false;
    }

    /** `select { case restartCh <- true: default: }` */
    method TrySend() returns (accepted: bool)
      modifies this
      ensures full
      ensures accepted == !old(full)
    {
      accepted := !full;
      full := true;
    }

    /** One turn of `for range restartCh`: takes the pending signal, if there is one. */
    method Receive() returns (got: bool)
      modifies this
      ensures !full
      ensures got == old(full)
    {
      got := full;
      full := false;
    }
  }

  /** The slot after `n` non-blocking sends with no receive in between, and how many were taken. */
  datatype Sends = Sends(full: bool, accepted: nat)

  function SendMany(full: bool, n: nat): Sends
    decreases n
  {
    if n == 0 then Sends(full, 0)
    else
      var rest := SendMany(true, n - 1);
      Sends(rest.full, rest.accepted + if full then 0 else 1)
  }

  /**
   * Coalescing: any number of sends while no cycle receives leave exactly one
   * pending signal, and at most one of them is taken (exactly one when the
   * slot started empty).
   */
  lemma {:induction false} SendManyCoalesces(full: bool, n: nat)
    requires n >= 1
    ensures SendMany(full, n).full
    decreases n
    ensures SendMany(full, n).accepted == if full then 0 else 1
  {
    if n > 1 {
      SendManyCoalesces(true, n - 1);
    }
  }

  /** What the listener goroutine and the timer see, in the order it happens. */
  datatype Input =
    | Change(ev: Event, now: int)   // an event from Watcher.Events() at time `now`
    | SourceError(err: string)      // an error from Watcher.Errors(): logged, nothing else
    | SourceClosed                  // a watcher channel was closed: the listener returns
    | Tick(now: int)                // the clock reaches `now`

  /** The listener's state: whether its loop still runs, and the armed timer's deadline. */
  datatype Timer = Timer(listening: bool, deadline: Option<int>)

  datatype StepResult = StepResult(timer: Timer, fired: bool)

  /** Every input that qualifies rearms with this deadline. */
  predicate IsQualifying(ignore: IgnoreMap, i: Input) {
    i.Change? && Qualifies(ignore, i.ev)
  }

  /**
   * One input. A qualifying event seen by a running listener cancels any
   * armed timer and arms a new one `debounce` after it; a tick at or after
   * the deadline fires the timer once and disarms it. A timer armed before
   * the listener returned still fires: `time.AfterFunc` does not belong to
   * the loop.
   */
  function Step(ignore: IgnoreMap, debounce: int, t: Timer, i: Input): (r: StepResult)
    ensures r.timer.listening == (t.listening && !i.SourceClosed?)
    ensures t.listening && IsQualifying(ignore, i) ==> r.timer.deadline == Some(i.now + debounce)
    ensures r.fired <==> i.Tick? && t.deadline.Some? && i.now >= t.deadline.value
    ensures r.fired ==> r.timer.deadline == None
    ensures !r.fired && !(t.listening && IsQualifying(ignore, i)) ==> r.timer.deadline == t.deadline
  {
    if t.listening && IsQualifying(ignore, i) then StepResult(Timer(true, Some(i.now + debounce)), false)
    else if i.SourceClosed? then StepResult(Timer(false, t.deadline), false)
    else if i.Tick? && t.deadline.Some? && i.now >= t.deadline.value then StepResult(Timer(t.listening, None), true)
    else StepResult(t, false)
  }

  datatype RunResult = RunResult(timer: Timer, fires: nat)

  /** A whole sequence of inputs, with the number of times the timer fired. */
  function RunAll(ignore: IgnoreMap, debounce: int, t: Timer, inputs: seq<Input>): RunResult
  {
    if inputs == [] then RunResult(t, 0)
    else
      var prev := RunAll(ignore, debounce, t, inputs[..|inputs| - 1]);
      var s := Step(ignore, debounce, prev.timer, inputs[|inputs| - 1]);
      RunResult(s.timer, prev.fires + if s.fired then 1 else 0)
  }

  lemma {:induction false} RunAllAppend(ignore: IgnoreMap, debounce: int, t: Timer, a: seq<Input>, b: seq<Input>)
    ensures var ra := RunAll(ignore, debounce, t, a);
            var rb := RunAll(ignore, debounce, ra.timer, b);
            RunAll(ignore, debounce, t, a + b) == RunResult(rb.timer, ra.fires + rb.fires)
  {
    if b != [] {
      assert (a + b)[..|a + b| - 1] == a + b[..|b| - 1];
      RunAllAppend(ignore, debounce, t, a, b[..|b| - 1]);
    } else {
      assert a + b == a;
    }
  }

  /** The time of the most recent qualifying event (0 when there is none). */
  function LastQualifyingTime(ignore: IgnoreMap, inputs: seq<Input>): int
  {
    if inputs == [] then 0
    else if IsQualifying(ignore, inputs[|inputs| - 1]) then inputs[|inputs| - 1].now
    else LastQualifyingTime(ignore, inputs[..|inputs| - 1])
  }

  /**
   * A burst: it starts with a qualifying event, each later qualifying event
   * and each tick comes less than `debounce` after the most recent qualifying
   * event before it, and the watcher stays open.
   */
  predicate Burst(ignore: IgnoreMap, debounce: int, inputs: seq<Input>)
  {
    if |inputs| <= 1 then |inputs| == 1 && IsQualifying(ignore, inputs[0])
    else
      var prefix := inputs[..|inputs| - 1];
      var last := inputs[|inputs| - 1];
      && Burst(ignore, debounce, prefix)
      && !last.SourceClosed?
      && (last.Tick? || IsQualifying(ignore, last) ==> last.now < LastQualifyingTime(ignore, prefix) + debounce)
  }

  /** During a burst the timer never fires, and it ends armed for `debounce` after the burst's last event. */
  lemma {:induction false} BurstDoesNotFire(ignore: IgnoreMap, debounce: int, t: Timer, inputs: seq<Input>)
    requires t.listening
    requires Burst(ignore, debounce, inputs)
    ensures RunAll(ignore, debounce, t, inputs)
            == RunResult(Timer(true, Some(LastQualifyingTime(ignore, inputs) + debounce)), 0)
  {
    var n := |inputs|;
    var prefix, last := inputs[..n - 1], inputs[n - 1];
    if n > 1 {
      BurstDoesNotFire(ignore, debounce, t, prefix);
      var armed := Timer(true, Some(LastQualifyingTime(ignore, prefix) + debounce));
      assert RunAll(ignore, debounce, t, inputs)
             == RunResult(Step(ignore, debounce, armed, last).timer, if Step(ignore, debounce, armed, last).fired then 1 else 0);
    } else {
      assert prefix == [];
      assert RunAll(ignore, debounce, t, inputs) == RunResult(Step(ignore, debounce, t, last).timer, 0);
    }
  }

  /** Inputs with no qualifying event and no tick reaching the deadline leave the armed timer as it is. */
  lemma {:induction false} QuietKeepsTimer(ignore: IgnoreMap, debounce: int, t: Timer, inputs: seq<Input>)
    requires t.deadline.Some? && t.listening
    requires forall j :: 0 <= j < |inputs| ==> !IsQualifying(ignore, inputs[j]) && !inputs[j].SourceClosed?
    requires forall j :: 0 <= j < |inputs| && inputs[j].Tick? ==> inputs[j].now < t.deadline.value
    ensures RunAll(ignore, debounce, t, inputs) == RunResult(t, 0)
  {
    if inputs != [] {
      QuietKeepsTimer(ignore, debounce, t, inputs[..|inputs| - 1]);
    }
  }

  /** A disarmed timer stays disarmed, and silent, until a qualifying event. */
  lemma {:induction false} DisarmedStaysSilent(ignore: IgnoreMap, debounce: int, t: Timer, inputs: seq<Input>)
    requires t.deadline.None? && t.listening
    requires forall j :: 0 <= j < |inputs| ==> !IsQualifying(ignore, inputs[j]) && !inputs[j].SourceClosed?
    ensures RunAll(ignore, debounce, t, inputs) == RunResult(t, 0)
  {
    if inputs != [] {
      DisarmedStaysSilent(ignore, debounce, t, inputs[..|inputs| - 1]);
    }
  }

  /**
   * A burst of qualifying events followed by a quiet period in which the
   * clock reaches the burst's last event plus `debounce` makes the timer fire
   * exactly once.
   */
  lemma BurstFiresOnce(ignore: IgnoreMap, debounce: int, t: Timer, burst: seq<Input>, after: seq<Input>, k: nat)
    requires t.listening
    requires Burst(ignore, debounce, burst)
    requires forall j :: 0 <= j < |after| ==> !IsQualifying(ignore, after[j]) && !after[j].SourceClosed?
    requires k < |after| && after[k].Tick? && after[k].now >= LastQualifyingTime(ignore, burst) + debounce
    ensures RunAll(ignore, debounce, t, burst + after).fires == 1
  {
    var deadline := LastQualifyingTime(ignore, burst) + debounce;
    BurstDoesNotFire(ignore, debounce, t, burst);
    var armed := Timer(true, Some(deadline));
    // the first tick that reaches the deadline
    var f := FirstLateTick(after, deadline, k);
    var quiet, rest := after[..f], after[f + 1..];
    assert after == quiet + [after[f]] + rest;
    QuietKeepsTimer(ignore, debounce, armed, quiet);
    assert RunAll(ignore, debounce, armed, [after[f]]) == RunResult(Timer(true, None), 1) by {
      assert [after[f]][..0] == [];
    }
    DisarmedStaysSilent(ignore, debounce, Timer(true, None), rest);
    RunAllAppend(ignore, debounce, armed, quiet, [after[f]]);
    RunAllAppend(ignore, debounce, armed, quiet + [after[f]], rest);
    RunAllAppend(ignore, debounce, t, burst, after);
  }

  /** The index of the first tick at or after `deadline`, given that tick `k` is one. */
  lemma FirstLateTick(after: seq<Input>, deadline: int, k: nat) returns (f: nat)
    requires k < |after| && after[k].Tick? && after[k].now >= deadline
    ensures f <= k && after[f].Tick? && after[f].now >= deadline
    ensures forall j :: 0 <= j < f && after[j].Tick? ==> after[j].now < deadline
  {
    f := 0;
    while !(after[f].Tick? && after[f].now >= deadline)
      invariant f <= k
      invariant forall j :: 0 <= j < f && after[j].Tick? ==> after[j].now < deadline
      decreases k - f
    {
      f := f + 1;
    }
  }

  /**
   * The listener goroutine of `Run` with its debounce timer. `Deliver` is one
   * input; when the timer fires it offers a signal to the restart slot.
   */
  class Debouncer {
    const ignore: IgnoreMap
    const debounce: int
    const slot: RestartSlot
    var listening: bool
    var deadline: Option<int>

    function State(): Timer
      reads this
    {
      Timer(listening, deadline)
    }

    constructor (ignore: IgnoreMap, debounce: int, slot: RestartSlot)
      ensures this.ignore == ignore && this.debounce == debounce && this.slot == slot
      ensures State() == Timer(true, None)
    {
      this.ignore := ignore;
      this.debounce := debounce;
      this.slot := slot;
      listening := true;
      deadline := None;
    }

    /** Handles one input; `fired` tells whether the timer fired, `dropped` whether its signal found the slot full. */
    method Deliver(i: Input) returns (fired: bool, dropped: bool)
      modifies this, slot
      ensures State() == Step(ignore, debounce, old(State()), i).timer
      ensures fired == Step(ignore, debounce, old(State()), i).fired
      ensures slot.full == (old(slot.full) || fired)
      ensures dropped == (fired && old(slot.full))
    {
      fired, dropped := false, false;
      match i {
        case Change(ev, now) =>
          if listening && !Lookup(ignore, GoStrings.Base(ev.name)) && IsChange(ev.op) {
            // debounceTimer.Stop(); debounceTimer = time.AfterFunc(DebounceTime, ...)
            deadline := Some(now + debounce);
          }
        case SourceError(_) =>
        case SourceClosed =>
          listening := false;
        case Tick(now) =>
          if deadline.Some? && now >= deadline.value {
            deadline := None;
            fired := true;
            var accepted := slot.TrySend();
            dropped := !accepted;
          }
      }
    }
  }
}
