/** The circuit breaker, one call at a time (pkg/patterns/circuitbreaker/circuitbreaker.go).
    `Breaker` is the object with its four fields; the automaton below says what it is for.
    `BreakerSteps` treats concurrent calls. */
module Breaker {
  import opened Domain

  datatype BreakerState = Closed | Open | HalfOpen

  /** `New` only accepts a positive number of half-open requests. */
  datatype Config = Config(maxFailures: int, resetTimeout: int, halfOpenRequests: int)

  predicate ValidConfig(cfg: Config) { cfg.halfOpenRequests >= 1 }

  datatype Setting = WithResetTimeout(timeout: int) | WithHalfOpenRequests(n: int)

  /** `New`: the defaults, then the options in order; a number of requests that is not positive is ignored. */
  function Configured(maxFailures: int, settings: seq<Setting>): Config {
    if settings == [] then Config(maxFailures, 5 * SECOND, 1)
    else
      var cfg := Configured(maxFailures, settings[..|settings| - 1]);
      match settings[|settings| - 1]
      case WithResetTimeout(timeout) => cfg.(resetTimeout := timeout)
      case WithHalfOpenRequests(n) => if n > 0 then cfg.(halfOpenRequests := n) else cfg
  }

  /** Whatever the settings, the configuration is valid and has the given limit; every valid one can be had. */
  lemma {:induction false} ConfiguredIsValid(maxFailures: int, settings: seq<Setting>)
    ensures ValidConfig(Configured(maxFailures, settings)) && Configured(maxFailures, settings).maxFailures == maxFailures
    decreases |settings|
  {
    if settings != [] { ConfiguredIsValid(maxFailures, settings[..|settings| - 1]); }
  }

  lemma ValidIsConfigured(cfg: Config)
    requires cfg.halfOpenRequests >= 1
    ensures ValidConfig(cfg)
    ensures Configured(cfg.maxFailures, [WithResetTimeout(cfg.resetTimeout), WithHalfOpenRequests(cfg.halfOpenRequests)]) == cfg
  {
    var first := WithResetTimeout(cfg.resetTimeout);
    var second := WithHalfOpenRequests(cfg.halfOpenRequests);
    assert [first, second][..1] == [first] && [first][..0] == [];
    assert Configured(cfg.maxFailures, [first]) == Config(cfg.maxFailures, cfg.resetTimeout, 1);
  }

  datatype CallResult = ErrOpen | Ran(ok: bool)

  // ---------------------------------------------------------------- the simple automaton

  /** Closed with so many consecutive failures, open since the last failure, or half-open with so many
      consecutive successes. */
  datatype Automaton = AClosed(failures: nat) | AOpen(since: Time) | AHalfOpen(successes: nat)

  /** A call that starts at `start`; if its function is run it ends at `end`. */
  datatype Call = Call(start: Time, end: Time, ok: bool)

  predicate Admits(cfg: Config, a: Automaton, now: Time) {
    a.AOpen? ==> now > a.since + cfg.resetTimeout
  }

  /** The outcome of an admitted call arrives.  When calls overlap it may arrive after another call
      has opened the breaker; a late failure then moves the window. */
  function Recorded(cfg: Config, a: Automaton, ok: bool, now: Time): Automaton {
    match a
    case AClosed(k) =>
      if ok then AClosed(0) else if k + 1 >= cfg.maxFailures then AOpen(now) else AClosed(k + 1)
    case AHalfOpen(n) =>
      if !ok then AOpen(now) else if n + 1 >= cfg.halfOpenRequests then AClosed(0) else AHalfOpen(n + 1)
    case AOpen(_) =>
      if ok then a else AOpen(now)
  }

  function Next(cfg: Config, a: Automaton, call: Call): (Automaton, CallResult) {
    if !Admits(cfg, a, call.start) then (a, ErrOpen)
    else (Recorded(cfg, if a.AOpen? then AHalfOpen(0) else a, call.ok, call.end), Ran(call.ok))
  }

  function RunCalls(cfg: Config, a: Automaton, calls: seq<Call>): Automaton {
    if calls == [] then a
    else Next(cfg, RunCalls(cfg, a, calls[..|calls| - 1]), calls[|calls| - 1]).0
  }

  // ---------------------------------------------------------------- the object

  class Breaker {
    const cfg: Config
    var state: BreakerState
    var failures: int
    var lastFailureTime: Time
    var successCount: int

    ghost predicate Valid()
      reads this
    {
      && ValidConfig(cfg) && failures >= 0
      && (state == HalfOpen ==> 0 <= successCount < cfg.halfOpenRequests)
    }

    ghost function Abstract(): Automaton
      reads this
      requires Valid()
    {
      match state
      case Closed => AClosed(failures)
      case Open => AOpen(lastFailureTime)
      case HalfOpen => AHalfOpen(successCount)
    }

    constructor (cfg: Config)
      requires ValidConfig(cfg)
      ensures Valid() && this.cfg == cfg && Abstract() == AClosed(0)
    {
      this.cfg := cfg;
      state, failures, lastFailureTime, successCount := Closed, 0, 0, 0;
    }

    method Transition(from: BreakerState, to: BreakerState)
      modifies this`state, this`failures, this`successCount
      ensures old(state) == from ==>
        && state == to && successCount == 0
        && failures == if to == Closed then 0 else old(failures)
      ensures old(state) != from ==>
        state == old(state) && failures == old(failures) && successCount == old(successCount)
    {
      if state == from {
        state := to;
        if to == Open || to == HalfOpen {
          successCount := 0;
        } else {
          failures := 0;
          successCount := 0;
        }
      }
    }

    /** Passes the gate, moving to half-open when the open window is over. */
    method CanExecute(now: Time) returns (admitted: bool)
      requires Valid()
      modifies this`state, this`failures, this`successCount
      ensures Valid() && admitted == Admits(cfg, old(Abstract()), now)
      ensures admitted <==> !(old(state) == Open && now <= lastFailureTime + cfg.resetTimeout)
      ensures Abstract() == if admitted && old(Abstract()).AOpen? then AHalfOpen(0) else old(Abstract())
    {
      match state {
        case Closed =>
          admitted := true;
        case Open =>
          if now > lastFailureTime + cfg.resetTimeout {
            Transition(Open, HalfOpen);
            admitted := true;
          } else {
            admitted := false;
          }
        case HalfOpen =>
          admitted := successCount < cfg.halfOpenRequests;
      }
    }

    method RecordResult(ok: bool, now: Time)
      requires Valid()
      modifies this
      ensures Valid() && Abstract() == Recorded(cfg, old(Abstract()), ok, now)
    {
      if !ok {
        failures := failures + 1;
        lastFailureTime := now;
        var current := state;
        if current == HalfOpen || (current == Closed && failures >= cfg.maxFailures) {
          Transition(current, Open);
        }
      } else {
        if state == HalfOpen {
          successCount := successCount + 1;
          if successCount >= cfg.halfOpenRequests {
            Transition(HalfOpen, Closed);
          }
        } else {
          failures := 0;
        }
      }
    }

    /** A call through the breaker is one step of the automaton. */
    method Execute(call: Call) returns (r: CallResult)
      requires Valid()
      modifies this
      ensures Valid()
      ensures (Abstract(), r) == Next(cfg, old(Abstract()), call)
      ensures r == if old(state) == Open && call.start <= old(lastFailureTime) + cfg.resetTimeout then ErrOpen else Ran(call.ok)
    {
      var admitted := CanExecute(call.start);
      if !admitted {
        return ErrOpen;
      }
      RecordResult(call.ok, call.end);
      return Ran(call.ok);
    }
  }

  // ---------------------------------------------------------------- what the automaton means

  /** The number of failures at the end of `calls`. */
  function Trailing(calls: seq<Call>): nat {
    if calls == [] || calls[|calls| - 1].ok then 0 else Trailing(calls[..|calls| - 1]) + 1
  }

  /** The last `m` of the first `i` calls all failed. */
  ghost predicate FailedRun(calls: seq<Call>, m: int, i: int) {
    m <= i <= |calls| && forall j :: i - m <= j < i && 0 <= j ==> !calls[j].ok
  }

  lemma PrefixRuns(calls: seq<Call>, m: int, i: int)
    requires 0 <= i < |calls|
    ensures FailedRun(calls[..|calls| - 1], m, i) <==> FailedRun(calls, m, i)
  {
    var init := calls[..|calls| - 1];
    assert forall j :: 0 <= j < i ==> calls[j] == init[j];
  }

  /** At least `m` trailing failures, said without counting. */
  lemma {:induction false} TrailingMeans(calls: seq<Call>, m: nat)
    ensures Trailing(calls) >= m <==> FailedRun(calls, m, |calls|)
    decreases |calls|
  {
    if calls != [] && m > 0 {
      var init := calls[..|calls| - 1];
      TrailingMeans(init, m - 1);
      if Trailing(calls) >= m {
        assert FailedRun(init, m - 1, |init|);
        forall j | |calls| - m <= j < |calls| ensures !calls[j].ok {
          if j < |init| { assert !init[j].ok; }
        }
      }
      if FailedRun(calls, m, |calls|) {
        assert !calls[|calls| - 1].ok;
        assert FailedRun(init, m - 1, |init|);
      }
    }
  }

  /** The failure that opens a closed breaker; a limit below one acts like one. */
  function Threshold(cfg: Config): nat { if cfg.maxFailures >= 1 then cfg.maxFailures else 1 }

  /** It opens exactly on the maxFailures-th consecutive failure: as long as no such run of failures
      has occurred the breaker is closed and counts the trailing failures. */
  lemma {:induction false} ClosedCountsTrailingFailures(cfg: Config, calls: seq<Call>)
    requires forall i :: 0 <= i <= |calls| ==> !FailedRun(calls, Threshold(cfg), i)
    ensures RunCalls(cfg, AClosed(0), calls) == AClosed(Trailing(calls))
    decreases |calls|
  {
    if calls != [] {
      var init := calls[..|calls| - 1];
      forall i | 0 <= i <= |init| ensures !FailedRun(init, Threshold(cfg), i) { PrefixRuns(calls, Threshold(cfg), i); }
      ClosedCountsTrailingFailures(cfg, init);
      TrailingMeans(calls, Threshold(cfg));
      assert !FailedRun(calls, Threshold(cfg), |calls|);
    }
  }

  lemma OpensOnTheThreshold(cfg: Config, calls: seq<Call>)
    requires calls != []
    requires forall i :: 0 <= i < |calls| ==> !FailedRun(calls, Threshold(cfg), i)
    ensures RunCalls(cfg, AClosed(0), calls) ==
      if FailedRun(calls, Threshold(cfg), |calls|) then AOpen(calls[|calls| - 1].end) else AClosed(Trailing(calls))
  {
    var init := calls[..|calls| - 1];
    forall i | 0 <= i <= |init| ensures !FailedRun(init, Threshold(cfg), i) { PrefixRuns(calls, Threshold(cfg), i); }
    ClosedCountsTrailingFailures(cfg, init);
    TrailingMeans(calls, Threshold(cfg));
  }

  /** While the window lasts every call is refused, and being refused does not extend it. */
  lemma {:induction false} RefusedWhileOpen(cfg: Config, since: Time, calls: seq<Call>)
    requires forall i :: 0 <= i < |calls| ==> calls[i].start <= since + cfg.resetTimeout
    ensures RunCalls(cfg, AOpen(since), calls) == AOpen(since)
    ensures forall i :: 0 <= i < |calls| ==> Next(cfg, RunCalls(cfg, AOpen(since), calls[..i]), calls[i]).1 == ErrOpen
    decreases |calls|
  {
    if calls != [] {
      var init := calls[..|calls| - 1];
      RefusedWhileOpen(cfg, since, init);
      forall i | 0 <= i < |calls| ensures Next(cfg, RunCalls(cfg, AOpen(since), calls[..i]), calls[i]).1 == ErrOpen {
        if i < |init| { assert calls[..i] == init[..i]; }
      }
    }
  }

  /** It closes exactly after halfOpenRequests consecutive half-open successes, and any half-open
      failure opens it again. */
  lemma {:induction false} ClosesAfterSuccesses(cfg: Config, calls: seq<Call>)
    requires ValidConfig(cfg) && 1 <= |calls| <= cfg.halfOpenRequests
    requires forall i :: 0 <= i < |calls| - 1 ==> calls[i].ok
    ensures RunCalls(cfg, AHalfOpen(0), calls) ==
      if !calls[|calls| - 1].ok then AOpen(calls[|calls| - 1].end)
      else if |calls| == cfg.halfOpenRequests then AClosed(0)
      else AHalfOpen(|calls|)
    decreases |calls|
  {
    var init := calls[..|calls| - 1];
    if init != [] {
      ClosesAfterSuccesses(cfg, init);
    }
  }

  /** An open breaker runs a call if and only if it starts after the window; that call alone then decides what
      comes next.  A breaker that is not open runs every call. */
  lemma OpenRunsIffAfterWindow(cfg: Config, since: Time, k: nat, call: Call)
    requires ValidConfig(cfg)
    ensures
      var (a, r) := Next(cfg, AOpen(since), call);
      if call.start > since + cfg.resetTimeout then
        && r == Ran(call.ok)
        && a == (if !call.ok then AOpen(call.end) else if cfg.halfOpenRequests == 1 then AClosed(0) else AHalfOpen(1))
      else r == ErrOpen && a == AOpen(since)
    ensures Next(cfg, AClosed(k), call).1 == Ran(call.ok) && Next(cfg, AHalfOpen(k), call).1 == Ran(call.ok)
  {
  }

  /** What call i of a sequence returns. */
  function ResultAt(cfg: Config, a: Automaton, calls: seq<Call>, i: nat): CallResult
    requires i < |calls|
  {
    Next(cfg, RunCalls(cfg, a, calls[..i]), calls[i]).1
  }

  ghost predicate FirstRun(cfg: Config, a: Automaton, calls: seq<Call>, i: nat)
    requires i < |calls|
  {
    ResultAt(cfg, a, calls, i) == Ran(calls[i].ok) && forall j: nat :: j < i ==> ResultAt(cfg, a, calls, j) == ErrOpen
  }

  ghost predicate FirstAfter(calls: seq<Call>, end: Time, i: nat)
    requires i < |calls|
  {
    calls[i].start > end && forall j: nat :: j < i ==> calls[j].start <= end
  }

  /** Over any sequence of calls, the first one run is the first to start after the window. */
  lemma FirstRunIsFirstAfterWindow(cfg: Config, since: Time, calls: seq<Call>, i: nat)
    requires i < |calls|
    ensures FirstRun(cfg, AOpen(since), calls, i) <==> FirstAfter(calls, since + cfg.resetTimeout, i)
  {
    if forall j: nat :: j < i ==> calls[j].start <= since + cfg.resetTimeout {
      EarlyAreRefused(cfg, since, calls, i);
    } else {
      var j := FirstLate(calls, since + cfg.resetTimeout, i);
      EarlyAreRefused(cfg, since, calls, j);
      assert ResultAt(cfg, AOpen(since), calls, j) == Ran(calls[j].ok);
    }
  }

  lemma EarlyAreRefused(cfg: Config, since: Time, calls: seq<Call>, i: nat)
    requires i < |calls| && forall j: nat :: j < i ==> calls[j].start <= since + cfg.resetTimeout
    ensures RunCalls(cfg, AOpen(since), calls[..i]) == AOpen(since)
    ensures forall j: nat :: j < i ==> ResultAt(cfg, AOpen(since), calls, j) == ErrOpen
  {
    RefusedWhileOpen(cfg, since, calls[..i]);
    forall j: nat | j < i ensures ResultAt(cfg, AOpen(since), calls, j) == ErrOpen { assert calls[..i][..j] == calls[..j]; }
  }

  lemma {:induction false} FirstLate(calls: seq<Call>, end: Time, i: nat) returns (j: nat)
    requires i < |calls| && exists k: nat :: k < i && calls[k].start > end
    ensures j < i && FirstAfter(calls, end, j)
    decreases i
  {
    var k: nat :| k < i && calls[k].start > end;
    j := k;
    if m: nat :| m < k && calls[m].start > end {
      j := FirstLate(calls, end, k);
    }
  }

  /** An outcome that arrives after another call has opened the breaker: a success changes nothing, a failure
      starts the window anew. */
  lemma LateOutcome(cfg: Config, since: Time, now: Time)
    ensures Recorded(cfg, AOpen(since), true, now) == AOpen(since) && Recorded(cfg, AOpen(since), false, now) == AOpen(now)
  {
  }
}
