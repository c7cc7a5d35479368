/** The circuit breaker under concurrency: any number of goroutines in `Execute`, interleaved at
    every atomic load, add, compare-and-swap and store, and at every clock reading
    (pkg/patterns/circuitbreaker/circuitbreaker.go). */
module BreakerSteps {
  import opened Domain
  import opened Breaker

  type Tid = nat

  datatype Pc =
    | Idle
    // canExecute
    | LoadGate
    | ReadClock
    | LoadWindow(now: Time)
    | CasHalfOpen
    | ResetHalfOpen
    | LoadQuota
    | Running
    // recordResult, failure
    | AddFailure
    | StampFailure(newFailures: int)
    | StoreFailure(newFailures: int, now: Time)
    | LoadAfterFailure(newFailures: int)
    | CasOpen(from: BreakerState)
    | ResetOpen
    // recordResult, success
    | LoadAfterSuccess
    | AddSuccess
    | CasClosed
    | ResetFailures
    | ResetSuccesses
    | ClearFailures

  /** The four atomics, the clock, the goroutines, and the state changes so far in order. */
  datatype State = State(
    state: BreakerState, failures: int, lastFailureTime: Time, successCount: int,
    clock: Time, threads: map<Tid, Pc>, changes: seq<(BreakerState, BreakerState)>)

  datatype Step = Tick(elapsed: nat) | Start(t: Tid) | Finish(t: Tid, ok: bool) | Act(t: Tid)

  function Initial(clock: Time): State {
    State(Closed, 0, 0, 0, clock, map[], [])
  }

  predicate Can(s: State, step: Step) {
    match step
    case Tick(_) => true
    case Start(t) => t !in s.threads || s.threads[t].Idle?
    case Finish(t, _) => t in s.threads && s.threads[t].Running?
    case Act(t) => t in s.threads && !s.threads[t].Idle? && !s.threads[t].Running?
  }

  function At(s: State, t: Tid, pc: Pc): State {
    s.(threads := s.threads[t := pc])
  }

  /** Compare and swap; `won` is where the goroutine goes if it succeeds. */
  function Cas(s: State, t: Tid, from: BreakerState, to: BreakerState, won: Pc, lost: Pc): State {
    if s.state == from then At(s.(state := to, changes := s.changes + [(from, to)]), t, won) else At(s, t, lost)
  }

  function DoAct(cfg: Config, s: State, t: Tid): State
    requires t in s.threads
  {
    match s.threads[t]
    case Idle => s
    case Running => s
    case LoadGate =>
      At(s, t, match s.state case Closed => Running case Open => ReadClock case HalfOpen => LoadQuota)
    case ReadClock => At(s, t, LoadWindow(s.clock))
    case LoadWindow(now) => At(s, t, if now > s.lastFailureTime + cfg.resetTimeout then CasHalfOpen else Idle)
    case CasHalfOpen => Cas(s, t, Open, HalfOpen, ResetHalfOpen, Running)
    case ResetHalfOpen => At(s.(successCount := 0), t, Running)
    case LoadQuota => At(s, t, if s.successCount < cfg.halfOpenRequests then Running else Idle)
    case AddFailure => At(s.(failures := s.failures + 1), t, StampFailure(s.failures + 1))
    case StampFailure(n) => At(s, t, StoreFailure(n, s.clock))
    case StoreFailure(n, now) => At(s.(lastFailureTime := now), t, LoadAfterFailure(n))
    case LoadAfterFailure(n) =>
      At(s, t, if s.state == HalfOpen || (s.state == Closed && n >= cfg.maxFailures) then CasOpen(s.state) else Idle)
    case CasOpen(from) => Cas(s, t, from, Open, ResetOpen, Idle)
    case ResetOpen => At(s.(successCount := 0), t, Idle)
    case LoadAfterSuccess => At(s, t, if s.state == HalfOpen then AddSuccess else ClearFailures)
    case AddSuccess =>
      At(s.(successCount := s.successCount + 1), t, if s.successCount + 1 >= cfg.halfOpenRequests then CasClosed else Idle)
    case CasClosed => Cas(s, t, HalfOpen, Closed, ResetFailures, Idle)
    case ResetFailures => At(s.(failures := 0), t, ResetSuccesses)
    case ResetSuccesses => At(s.(successCount := 0), t, Idle)
    case ClearFailures => At(s.(failures := 0), t, Idle)
  }

  function Do(cfg: Config, s: State, step: Step): State
    requires Can(s, step)
  {
    match step
    case Tick(elapsed) => s.(clock := s.clock + elapsed)
    case Start(t) => At(s, t, LoadGate)
    case Finish(t, ok) => At(s, t, if ok then LoadAfterSuccess else AddFailure)
    case Act(t) => DoAct(cfg, s, t)
  }

  // ---------------------------------------------------------------- what goroutines owe

  /** The goroutine is about to reopen the half-open gate or to leave the half-open state. */
  predicate OwesRelease(pc: Pc) { pc.ResetHalfOpen? || pc.CasClosed? }

  /** The goroutine is about to clear the failures of a closing or to try to trip the breaker. */
  predicate OwesTrip(cfg: Config, pc: Pc) {
    || pc.ResetFailures?
    || pc == CasOpen(Closed)
    || ((pc.StampFailure? || pc.StoreFailure? || pc.LoadAfterFailure?) && pc.newFailures >= cfg.maxFailures)
  }

  predicate Wedged(cfg: Config, s: State) { s.state == HalfOpen && s.successCount >= cfg.halfOpenRequests }

  predicate Untripped(cfg: Config, s: State) { s.state == Closed && s.failures >= cfg.maxFailures }

  ghost predicate ReleaseOwed(s: State) { exists t :: t in s.threads && OwesRelease(s.threads[t]) }

  ghost predicate TripOwed(cfg: Config, s: State) { exists t :: t in s.threads && OwesTrip(cfg, s.threads[t]) }

  predicate Edge(change: (BreakerState, BreakerState)) {
    change in {(Closed, Open), (Open, HalfOpen), (HalfOpen, Open), (HalfOpen, Closed)}
  }

  /** The state changes form one walk from Closed to the present state, along the four edges. */
  ghost predicate IsWalk(changes: seq<(BreakerState, BreakerState)>, end: BreakerState) {
    && (forall i :: 0 <= i < |changes| ==> Edge(changes[i]))
    && (forall i :: 0 <= i < |changes| - 1 ==> changes[i].1 == changes[i + 1].0)
    && (if changes == [] then end == Closed else changes[0].0 == Closed && changes[|changes| - 1].1 == end)
  }

  ghost predicate PcOk(pc: Pc) { pc.CasOpen? ==> pc.from != Open }

  ghost predicate Inv(cfg: Config, s: State) {
    && (Wedged(cfg, s) ==> ReleaseOwed(s))
    && (cfg.maxFailures >= 1 && Untripped(cfg, s) ==> TripOwed(cfg, s))
    && IsWalk(s.changes, s.state)
    && (forall t :: t in s.threads ==> PcOk(s.threads[t]))
  }

  lemma ActKeepsRelease(cfg: Config, s: State, t: Tid)
    requires ValidConfig(cfg) && t in s.threads && (Wedged(cfg, s) ==> ReleaseOwed(s))
    ensures Wedged(cfg, DoAct(cfg, s, t)) ==> ReleaseOwed(DoAct(cfg, s, t))
  {
    var s' := DoAct(cfg, s, t);
    if Wedged(cfg, s') {
      if OwesRelease(s'.threads[t]) {
        assert t in s'.threads;
      } else {
        var u :| u in s.threads && OwesRelease(s.threads[u]);
        assert u != t && u in s'.threads && s'.threads[u] == s.threads[u];
      }
    }
  }

  lemma ActKeepsTrip(cfg: Config, s: State, t: Tid)
    requires cfg.maxFailures >= 1 && t in s.threads && PcOk(s.threads[t]) && (Untripped(cfg, s) ==> TripOwed(cfg, s))
    ensures Untripped(cfg, DoAct(cfg, s, t)) ==> TripOwed(cfg, DoAct(cfg, s, t))
  {
    var s' := DoAct(cfg, s, t);
    if Untripped(cfg, s') {
      if OwesTrip(cfg, s'.threads[t]) {
        assert t in s'.threads;
      } else {
        var u :| u in s.threads && OwesTrip(cfg, s.threads[u]);
        assert u != t && u in s'.threads && s'.threads[u] == s.threads[u];
      }
    }
  }

  lemma ExtendWalk(changes: seq<(BreakerState, BreakerState)>, end: BreakerState, to: BreakerState)
    requires IsWalk(changes, end) && Edge((end, to))
    ensures IsWalk(changes + [(end, to)], to)
  {
  }

  /** An act changes the state along one of the four edges or not at all. */
  lemma ActFollowsEdge(cfg: Config, s: State, t: Tid)
    requires t in s.threads && PcOk(s.threads[t])
    ensures
      var s' := DoAct(cfg, s, t);
      && PcOk(s'.threads[t])
      && ((s'.changes == s.changes && s'.state == s.state) ||
          (s'.changes == s.changes + [(s.state, s'.state)] && Edge((s.state, s'.state))))
  {
  }

  lemma ActKeepsWalk(cfg: Config, s: State, t: Tid)
    requires t in s.threads && PcOk(s.threads[t]) && IsWalk(s.changes, s.state)
    ensures IsWalk(DoAct(cfg, s, t).changes, DoAct(cfg, s, t).state)
    ensures PcOk(DoAct(cfg, s, t).threads[t])
  {
    ActFollowsEdge(cfg, s, t);
    var s' := DoAct(cfg, s, t);
    if s'.changes != s.changes { ExtendWalk(s.changes, s.state, s'.state); }
  }

  lemma ActMovesOne(cfg: Config, s: State, t: Tid)
    requires t in s.threads
    ensures t in DoAct(cfg, s, t).threads && DoAct(cfg, s, t).threads == s.threads[t := DoAct(cfg, s, t).threads[t]]
  {
  }

  lemma ActKeepsInv(cfg: Config, s: State, t: Tid)
    requires ValidConfig(cfg) && Inv(cfg, s) && t in s.threads
    ensures Inv(cfg, DoAct(cfg, s, t))
  {
    ActKeepsRelease(cfg, s, t);
    if cfg.maxFailures >= 1 { ActKeepsTrip(cfg, s, t); }
    ActKeepsWalk(cfg, s, t);
    ActMovesOne(cfg, s, t);
  }

  /** Time passes, or a goroutine enters or finishes its function: nothing owed is dropped. */
  lemma OutsideStepKeepsInv(cfg: Config, s: State, step: Step)
    requires Inv(cfg, s) && Can(s, step) && !step.Act?
    ensures Inv(cfg, Do(cfg, s, step))
  {
    var s' := Do(cfg, s, step);
    if Wedged(cfg, s') {
      var u :| u in s.threads && OwesRelease(s.threads[u]);
      assert u in s'.threads && s'.threads[u] == s.threads[u];
    }
    if cfg.maxFailures >= 1 && Untripped(cfg, s') {
      var u :| u in s.threads && OwesTrip(cfg, s.threads[u]);
      assert u in s'.threads && s'.threads[u] == s.threads[u];
    }
  }

  // ---------------------------------------------------------------- whole runs

  ghost predicate CanRun(cfg: Config, s: State, steps: seq<Step>)
    decreases |steps|
  {
    steps == [] || (Can(s, steps[0]) && CanRun(cfg, Do(cfg, s, steps[0]), steps[1..]))
  }

  ghost function Run(cfg: Config, s: State, steps: seq<Step>): State
    requires CanRun(cfg, s, steps)
    decreases |steps|
  {
    if steps == [] then s else Run(cfg, Do(cfg, s, steps[0]), steps[1..])
  }

  lemma {:induction false} RunKeepsInv(cfg: Config, s: State, steps: seq<Step>)
    requires ValidConfig(cfg) && Inv(cfg, s) && CanRun(cfg, s, steps)
    ensures Inv(cfg, Run(cfg, s, steps))
    decreases |steps|
  {
    if steps != [] {
      if steps[0].Act? { ActKeepsInv(cfg, s, steps[0].t); } else { OutsideStepKeepsInv(cfg, s, steps[0]); }
      RunKeepsInv(cfg, Do(cfg, s, steps[0]), steps[1..]);
    }
  }

  lemma InitialInv(cfg: Config, clock: Time)
    requires ValidConfig(cfg)
    ensures Inv(cfg, Initial(clock))
  {
  }

  /** The breaker never wedges: whenever the half-open gate is shut some goroutine still owes a step,
      and that step alone opens the gate again or leaves the half-open state. */
  lemma NeverWedges(cfg: Config, clock: Time, steps: seq<Step>)
    requires ValidConfig(cfg) && CanRun(cfg, Initial(clock), steps)
    ensures
      var s := Run(cfg, Initial(clock), steps);
      Wedged(cfg, s) ==>
        exists t :: t in s.threads && OwesRelease(s.threads[t]) && Can(s, Act(t)) && !Wedged(cfg, Do(cfg, s, Act(t)))
  {
    var s := Run(cfg, Initial(clock), steps);
    InitialInv(cfg, clock);
    RunKeepsInv(cfg, Initial(clock), steps);
    if Wedged(cfg, s) {
      var t :| t in s.threads && OwesRelease(s.threads[t]);
      assert Can(s, Act(t)) && !Wedged(cfg, Do(cfg, s, Act(t)));
    }
  }

  /** No goroutine is inside `recordResult` or `transition`. */
  predicate Quiescent(s: State) {
    forall t :: t in s.threads ==> s.threads[t] in {Idle, LoadGate, ReadClock, LoadQuota, Running} || s.threads[t].LoadWindow?
  }

  ghost predicate SettlesTripped(cfg: Config, clock: Time) {
    forall steps :: CanRun(cfg, Initial(clock), steps) && Quiescent(Run(cfg, Initial(clock), steps)) ==>
      !Untripped(cfg, Run(cfg, Initial(clock), steps))
  }

  /** The breaker never misses a trip: in every interleaving, failures at or above the threshold in the
      closed state are owed to a goroutine that has not finished recording; so once things settle the
      threshold has been acted on.  This is so exactly for thresholds of at least one. */
  lemma NeverMissesATrip(cfg: Config, clock: Time)
    requires ValidConfig(cfg)
    ensures SettlesTripped(cfg, clock) <==> cfg.maxFailures >= 1
  {
    if cfg.maxFailures >= 1 {
      forall steps | CanRun(cfg, Initial(clock), steps) && Quiescent(Run(cfg, Initial(clock), steps))
        ensures !Untripped(cfg, Run(cfg, Initial(clock), steps))
      {
        InitialInv(cfg, clock);
        RunKeepsInv(cfg, Initial(clock), steps);
      }
    } else {
      assert CanRun(cfg, Initial(clock), []) && Run(cfg, Initial(clock), []) == Initial(clock);
      assert Quiescent(Initial(clock)) && Untripped(cfg, Initial(clock));
    }
  }

  /** Only the four edges ever occur, and the changes chain up: each leaves the state the one before
      it entered. */
  lemma ChangesFormAWalk(cfg: Config, clock: Time, steps: seq<Step>)
    requires ValidConfig(cfg) && CanRun(cfg, Initial(clock), steps)
    ensures IsWalk(Run(cfg, Initial(clock), steps).changes, Run(cfg, Initial(clock), steps).state)
  {
    InitialInv(cfg, clock);
    RunKeepsInv(cfg, Initial(clock), steps);
  }

  // ---------------------------------------------------------------- one goroutine alone

  /** Acts left, at most, before the goroutine runs its function or is done. */
  function ActsLeft(pc: Pc): nat {
    match pc
    case Idle => 0 case Running => 0
    case LoadGate => 5 case ReadClock => 4 case LoadWindow(_) => 3 case CasHalfOpen => 2 case ResetHalfOpen => 1
    case LoadQuota => 1
    case AddFailure => 6 case StampFailure(_) => 5 case StoreFailure(_, _) => 4 case LoadAfterFailure(_) => 3
    case CasOpen(_) => 2 case ResetOpen => 1
    case LoadAfterSuccess => 5 case AddSuccess => 4 case CasClosed => 3 case ResetFailures => 2 case ResetSuccesses => 1
    case ClearFailures => 1
  }

  /** Goroutine t alone acts until it runs its function or is done. */
  function Drive(cfg: Config, s: State, t: Tid): State
    requires t in s.threads
    decreases ActsLeft(s.threads[t])
  {
    if s.threads[t].Idle? || s.threads[t].Running? then s else Drive(cfg, DoAct(cfg, s, t), t)
  }

  predicate Sound(cfg: Config, s: State) {
    s.failures >= 0 && (s.state == HalfOpen ==> 0 <= s.successCount < cfg.halfOpenRequests)
  }

  /** The state of the simple automaton. */
  function Abstract(cfg: Config, s: State): Automaton
    requires Sound(cfg, s)
  {
    match s.state
    case Closed => AClosed(s.failures)
    case Open => AOpen(s.lastFailureTime)
    case HalfOpen => AHalfOpen(s.successCount)
  }

  /** Passing the gate alone: admitted exactly when the automaton admits. */
  lemma GateAlone(cfg: Config, s: State, t: Tid)
    requires ValidConfig(cfg) && Sound(cfg, s) && t in s.threads && s.threads[t].LoadGate?
    ensures
      var s' := Drive(cfg, s, t);
      var admitted := Admits(cfg, Abstract(cfg, s), s.clock);
      && Sound(cfg, s') && s'.clock == s.clock && t in s'.threads && s'.threads[t] == (if admitted then Running else Idle)
      && Abstract(cfg, s') == if admitted && s.state == Open then AHalfOpen(0) else Abstract(cfg, s)
  {
    var s1 := DoAct(cfg, s, t);
    assert Drive(cfg, s, t) == Drive(cfg, s1, t);
    if s.state == Open {
      var s2 := DoAct(cfg, s1, t);
      var s3 := DoAct(cfg, s2, t);
      assert Drive(cfg, s1, t) == Drive(cfg, s2, t) == Drive(cfg, s3, t);
      if s3.threads[t].CasHalfOpen? {
        var s4 := DoAct(cfg, s3, t);
        assert Drive(cfg, s3, t) == Drive(cfg, s4, t) == DoAct(cfg, s4, t);
      }
    } else if s.state == HalfOpen {
      assert Drive(cfg, s1, t) == DoAct(cfg, s1, t);
    } else {
      assert Drive(cfg, s1, t) == s1;
    }
  }

  /** From the load that follows a failure on: trip or not. */
  lemma TripAlone(cfg: Config, s: State, t: Tid)
    requires ValidConfig(cfg) && s.failures >= 0 && t in s.threads && s.threads[t] == LoadAfterFailure(s.failures)
    ensures
      var s' := Drive(cfg, s, t);
      var trips := s.state == HalfOpen || (s.state == Closed && s.failures >= cfg.maxFailures);
      && s'.state == (if trips then Open else s.state) && s'.failures == s.failures && s'.lastFailureTime == s.lastFailureTime
      && (trips || s'.successCount == s.successCount) && t in s'.threads && s'.threads[t].Idle?
  {
    var s1 := DoAct(cfg, s, t);
    assert Drive(cfg, s, t) == Drive(cfg, s1, t);
    if s1.threads[t].CasOpen? {
      var s2 := DoAct(cfg, s1, t);
      assert Drive(cfg, s1, t) == Drive(cfg, s2, t) == DoAct(cfg, s2, t);
    }
  }

  lemma FailureAlone(cfg: Config, s: State, t: Tid)
    requires ValidConfig(cfg) && Sound(cfg, s) && t in s.threads && s.threads[t].AddFailure?
    ensures
      var s' := Drive(cfg, s, t);
      && Sound(cfg, s') && t in s'.threads && s'.threads[t].Idle?
      && Abstract(cfg, s') == Recorded(cfg, Abstract(cfg, s), false, s.clock)
  {
    var s1 := DoAct(cfg, s, t);
    var s2 := DoAct(cfg, s1, t);
    var s3 := DoAct(cfg, s2, t);
    assert Drive(cfg, s, t) == Drive(cfg, s1, t) == Drive(cfg, s2, t) == Drive(cfg, s3, t);
    TripAlone(cfg, s3, t);
  }

  /** A half-open success: counted, and closing the breaker when it is the last one needed. */
  lemma HalfOpenSuccessAlone(cfg: Config, s: State, t: Tid)
    requires s.state == HalfOpen && t in s.threads && s.threads[t].AddSuccess?
    ensures
      var s' := Drive(cfg, s, t);
      && t in s'.threads && s'.threads[t].Idle?
      && if s.successCount + 1 >= cfg.halfOpenRequests then s'.state == Closed && s'.failures == 0
         else s'.state == HalfOpen && s'.successCount == s.successCount + 1 && s'.failures == s.failures
  {
    var s1 := DoAct(cfg, s, t);
    assert Drive(cfg, s, t) == Drive(cfg, s1, t);
    if s1.threads[t].CasClosed? {
      var s2 := DoAct(cfg, s1, t);
      var s3 := DoAct(cfg, s2, t);
      assert Drive(cfg, s1, t) == Drive(cfg, s2, t) == Drive(cfg, s3, t) == DoAct(cfg, s3, t);
    }
  }

  lemma SuccessAlone(cfg: Config, s: State, t: Tid)
    requires ValidConfig(cfg) && Sound(cfg, s) && t in s.threads && s.threads[t].LoadAfterSuccess?
    ensures
      var s' := Drive(cfg, s, t);
      && Sound(cfg, s') && t in s'.threads && s'.threads[t].Idle?
      && Abstract(cfg, s') == Recorded(cfg, Abstract(cfg, s), true, s.clock)
  {
    var s1 := DoAct(cfg, s, t);
    assert Drive(cfg, s, t) == Drive(cfg, s1, t);
    if s.state == HalfOpen {
      HalfOpenSuccessAlone(cfg, s1, t);
    } else {
      assert Drive(cfg, s1, t) == DoAct(cfg, s1, t);
    }
  }

  /** The state after a whole call by a goroutine that is not disturbed, and what the call returns. */
  function CallAlone(cfg: Config, s: State, t: Tid, elapsed: nat, ok: bool): (State, CallResult)
    requires Can(s, Start(t))
  {
    var gate := Drive(cfg, Do(cfg, s, Start(t)), t);
    if t in gate.threads && gate.threads[t].Running?
    then (Drive(cfg, Do(cfg, Do(cfg, gate, Tick(elapsed)), Finish(t, ok)), t), Ran(ok))
    else (gate, ErrOpen)
  }

  /** The atomic steps of an undisturbed call add up to one step of the simple automaton: the same next
      state, and refused or run alike. */
  lemma CallAloneIsNext(cfg: Config, s: State, t: Tid, elapsed: nat, ok: bool)
    requires ValidConfig(cfg) && Sound(cfg, s) && Can(s, Start(t))
    ensures
      var (s', result) := CallAlone(cfg, s, t, elapsed, ok);
      && Sound(cfg, s') && Can(s', Start(t))
      && (Abstract(cfg, s'), result) == Next(cfg, Abstract(cfg, s), Call(s.clock, s.clock + elapsed, ok))
  {
    var entered := Do(cfg, s, Start(t));
    GateAlone(cfg, entered, t);
    var gate := Drive(cfg, entered, t);
    if gate.threads[t].Running? {
      var back := Do(cfg, Do(cfg, gate, Tick(elapsed)), Finish(t, ok));
      if ok { SuccessAlone(cfg, back, t); } else { FailureAlone(cfg, back, t); }
    }
  }

  // ---------------------------------------------------------------- one goroutine among others

  /** A goroutine that loses its swap to another changes nothing and goes on: with its function after
      canExecute, and to its end after recordResult. */
  lemma LostSwap(cfg: Config, s: State, t: Tid)
    requires t in s.threads
    requires
      var pc := s.threads[t];
      (pc.CasHalfOpen? && s.state != Open) || (pc.CasOpen? && s.state != pc.from) || (pc.CasClosed? && s.state != HalfOpen)
    ensures DoAct(cfg, s, t) == s.(threads := s.threads[t := if s.threads[t].CasHalfOpen? then Running else Idle])
  {
  }

  /** A goroutine that has counted its failure compares its own count, whatever others have done to the
      counter since, and trips the breaker from the state it then sees. */
  lemma OwnCountDecides(cfg: Config, s: State, t: Tid, n: int)
    requires t in s.threads && s.threads[t] == LoadAfterFailure(n)
    ensures
      DoAct(cfg, s, t).threads[t] ==
        match s.state
        case HalfOpen => CasOpen(HalfOpen)
        case Closed => if n >= cfg.maxFailures then CasOpen(Closed) else Idle
        case Open => Idle
  {
  }

  /** A half-open success counts whatever the count was, and the gate looks at that count. */
  lemma GateCountsSuccesses(cfg: Config, s: State, t: Tid)
    requires t in s.threads
    ensures s.threads[t].LoadQuota? ==>
      DoAct(cfg, s, t) == s.(threads := s.threads[t := if s.successCount < cfg.halfOpenRequests then Running else Idle])
    ensures s.threads[t].AddSuccess? ==>
      && DoAct(cfg, s, t).successCount == s.successCount + 1
      && (DoAct(cfg, s, t).threads[t].CasClosed? <==> s.successCount + 1 >= cfg.halfOpenRequests)
  {
  }
}
