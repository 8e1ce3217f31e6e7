/**
 * The health gate `waitForHealth` (internal/livereload/livereload.go).
 * The HTTP client and the wall clock are replaced by the list of responses
 * to the polls that start before the deadline: the environment decides how
 * many polls fit in `HealthTimeout`, and the end of the list is the moment
 * the deadline passes.
 */
module Health {
  import opened Wrappers

  /** A response counts as healthy exactly when its status is in 200..399. */
  predicate IsHealthyStatus(code: int) {
    200 <= code < 400
  }

  /** One poll: the status code of the response, or None when the request failed (or timed out). */
  type Poll = Option<int>

  predicate PollHealthy(p: Poll) {
    p.Some? && IsHealthyStatus(p.value)
  }

  /** The health-check settings of `Livereload`. Durations are in nanoseconds. */
  datatype HealthConfig = HealthConfig(url: string, restartDelay: int, timeout: int, interval: int)

  datatype HealthOutcome =
    | Delayed(slept: int)     // no URL: slept this long
    | Ready(polls: nat)       // the last of this many polls was healthy
    | TimedOut(polls: nat)    // this many polls, none healthy; a warning is logged

  /**
   * waitForHealth. Without a URL it sleeps `restartDelay` when that is
   * positive and nothing otherwise. With a URL it polls until a response is
   * healthy or the deadline passes. In every case it returns no error.
   */
  method WaitForHealth(cfg: HealthConfig, polls: seq<Poll>) returns (err: Option<string>, outcome: HealthOutcome)
    ensures err == None
    ensures cfg.url == "" ==> outcome == Delayed(if cfg.restartDelay > 0 then cfg.restartDelay else 0)
    ensures cfg.url != "" ==> (outcome.Ready? || outcome.TimedOut?)
    ensures outcome.Ready? ==> 1 <= outcome.polls <= |polls| && PollHealthy(polls[outcome.polls - 1])
                               && forall j :: 0 <= j < outcome.polls - 1 ==> !PollHealthy(polls[j])
    ensures outcome.TimedOut? ==> outcome.polls == |polls| && forall j :: 0 <= j < |polls| ==> !PollHealthy(polls[j])
    ensures cfg.url != "" ==> (outcome.Ready? <==> exists j :: 0 <= j < |polls| && PollHealthy(polls[j]))
    ensures cfg.url != "" && |polls| >= 1 && PollHealthy(polls[0]) ==> outcome == Ready(1)
  {
    if cfg.url == "" {
      var slept := 0;
      if cfg.restartDelay > 0 {
        slept := cfg.restartDelay;  // time.Sleep(RestartDelay)
      }
      return None, Delayed(slept);
    }
    var i := 0;
    while i < |polls|
      invariant 0 <= i <= |polls|
      invariant forall j :: 0 <= j < i ==> !PollHealthy(polls[j])
    {
      var resp := polls[i];
      if resp.Some? && resp.value >= 200 && resp.value < 400 {
        return None, Ready(i + 1);
      }
      i := i + 1;  // time.Sleep(HealthInterval)
    }
    // Warning: Health check timed out; the reload still proceeds
    return None, TimedOut(i);
  }
}
