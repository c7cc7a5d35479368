/** The batch processor (pkg/patterns/batch/batch.go): one goroutine per request, a semaphore channel
    that admits `capacity` of them, a shared slice with one slot per request and a wait group.

    What Validate and Process answer is part of the step, so the theorems hold for every answer. */
module Batch {
  import opened Domain

  type Value = seq<byte>
  type Failure = string

  datatype Item = Item(result: Value, error: Option<Failure>)

  /** Where the goroutine of a request stands; deferred calls run last to first, so the semaphore is
      released before the wait group is told. */
  datatype Stage = Unspawned | Acquiring | Validating | Processing | Releasing | Finishing | Done

  datatype Call =
    | Validated(i: nat, verdict: Option<Failure>)
    | Processed(i: nat, item: Item)

  datatype State = State(
    spawned: nat, stages: seq<Stage>, slots: seq<Item>, tokens: nat, pending: nat, log: seq<Call>, returned: bool)

  datatype Step =
    | Spawn
    | Acquire(i: nat)
    | Validate(i: nat, verdict: Option<Failure>)
    | Process(i: nat, item: Item)
    | Release(i: nat)
    | Finish(i: nat)
    | Return

  /** The slot `make` creates: no result, no error. */
  function Blank(): Item { Item([], None) }

  function Initial(n: nat): State {
    State(0, seq(n, _ => Unspawned), seq(n, _ => Blank()), 0, 0, [], false)
  }

  predicate At(s: State, i: nat, stage: Stage) { i < |s.stages| && s.stages[i] == stage }

  /** Release takes a token out of the semaphore and Finish lowers the wait group: both block, or
      panic, at zero. */
  predicate Can(capacity: nat, s: State, step: Step) {
    && |s.slots| == |s.stages|
    && match step
       case Spawn => s.spawned < |s.stages|
       case Acquire(i) => At(s, i, Acquiring) && s.tokens < capacity
       case Validate(i, _) => At(s, i, Validating)
       case Process(i, _) => At(s, i, Processing)
       case Release(i) => At(s, i, Releasing) && s.tokens > 0
       case Finish(i) => At(s, i, Finishing) && s.pending > 0
       case Return => s.spawned == |s.stages| && s.pending == 0 && !s.returned
  }

  function Do(capacity: nat, s: State, step: Step): State
    requires Can(capacity, s, step)
  {
    match step
    case Spawn => s.(spawned := s.spawned + 1, stages := s.stages[s.spawned := Acquiring], pending := s.pending + 1)
    case Acquire(i) => s.(stages := s.stages[i := Validating], tokens := s.tokens + 1)
    case Validate(i, verdict) =>
      var s' := s.(log := s.log + [Validated(i, verdict)]);
      if verdict.Some? then s'.(stages := s.stages[i := Releasing], slots := s.slots[i := Item([], verdict)])
      else s'.(stages := s.stages[i := Processing])
    case Process(i, item) =>
      s.(stages := s.stages[i := Releasing], slots := s.slots[i := item], log := s.log + [Processed(i, item)])
    case Release(i) => s.(stages := s.stages[i := Finishing], tokens := s.tokens - 1)
    case Finish(i) => s.(stages := s.stages[i := Done], pending := s.pending - 1)
    case Return => s.(returned := true)
  }

  // ---------------------------------------------------------------- counting stages

  function Inside(stage: Stage): nat { if stage in {Validating, Processing, Releasing} then 1 else 0 }

  function Live(stage: Stage): nat { if stage in {Unspawned, Done} then 0 else 1 }

  /** Steps still ahead of a goroutine, its spawning included. */
  function Ahead(stage: Stage): nat {
    match stage
    case Unspawned => 6 case Acquiring => 5 case Validating => 4 case Processing => 3
    case Releasing => 2 case Finishing => 1 case Done => 0
  }

  function InsideAll(stages: seq<Stage>): nat {
    if stages == [] then 0 else Inside(stages[0]) + InsideAll(stages[1..])
  }

  function LiveAll(stages: seq<Stage>): nat {
    if stages == [] then 0 else Live(stages[0]) + LiveAll(stages[1..])
  }

  function AheadAll(stages: seq<Stage>): nat {
    if stages == [] then 0 else Ahead(stages[0]) + AheadAll(stages[1..])
  }

  lemma {:induction false} Moved(stages: seq<Stage>, i: nat, stage: Stage)
    requires i < |stages|
    ensures InsideAll(stages[i := stage]) + Inside(stages[i]) == InsideAll(stages) + Inside(stage)
    ensures LiveAll(stages[i := stage]) + Live(stages[i]) == LiveAll(stages) + Live(stage)
    ensures AheadAll(stages[i := stage]) + Ahead(stages[i]) == AheadAll(stages) + Ahead(stage)
    decreases |stages|
  {
    if i > 0 {
      Moved(stages[1..], i - 1, stage);
      assert stages[i := stage][1..] == stages[1..][i - 1 := stage];
    } else {
      assert stages[0 := stage][1..] == stages[1..];
    }
  }

  lemma {:induction false} CountsAreSums(stages: seq<Stage>, i: nat)
    requires i < |stages|
    ensures Inside(stages[i]) <= InsideAll(stages) && Live(stages[i]) <= LiveAll(stages)
    decreases |stages|
  {
    if i > 0 { CountsAreSums(stages[1..], i - 1); }
  }

  lemma {:induction false} AllUnspawned(n: nat)
    ensures var stages := seq(n, _ => Unspawned);
      InsideAll(stages) == 0 && LiveAll(stages) == 0 && AheadAll(stages) == 6 * n
  {
    if n > 0 {
      AllUnspawned(n - 1);
      assert seq(n, _ => Unspawned)[1..] == seq(n - 1, _ => Unspawned);
    }
  }

  /** Somebody is live when the wait group is above zero. */
  lemma {:induction false} SomeoneLive(stages: seq<Stage>) returns (i: nat)
    requires LiveAll(stages) > 0
    ensures i < |stages| && Live(stages[i]) == 1
    decreases |stages|
  {
    if Live(stages[0]) == 1 {
      i := 0;
    } else {
      var j := SomeoneLive(stages[1..]);
      i := j + 1;
    }
  }

  lemma {:induction false} SomeoneInside(stages: seq<Stage>) returns (i: nat)
    requires InsideAll(stages) > 0
    ensures i < |stages| && Inside(stages[i]) == 1
    decreases |stages|
  {
    if Inside(stages[0]) == 1 {
      i := 0;
    } else {
      var j := SomeoneInside(stages[1..]);
      i := j + 1;
    }
  }

  // ---------------------------------------------------------------- the invariant

  /** The calls made for request i, in order. */
  function History(log: seq<Call>, i: nat): seq<Call> {
    if log == [] then []
    else
      var last := log[|log| - 1];
      History(log[..|log| - 1], i) + (if last.i == i then [last] else [])
  }

  /** Validate ran once.  Either it refused, Process never ran and the slot holds the refusal, or it
      passed, Process ran once after it and the slot holds what Process answered. */
  predicate Settled(history: seq<Call>, i: nat, slot: Item) {
    || (|history| == 1 && history[0] == Validated(i, slot.error) && slot == Item([], slot.error) && slot.error.Some?)
    || history == [Validated(i, None), Processed(i, slot)]
  }

  /** What the calls so far and the slot are, by where the goroutine stands. */
  predicate StageOk(stage: Stage, i: nat, history: seq<Call>, slot: Item) {
    match stage
    case Unspawned => history == [] && slot == Blank()
    case Acquiring => history == [] && slot == Blank()
    case Validating => history == [] && slot == Blank()
    case Processing => history == [Validated(i, None)] && slot == Blank()
    case Releasing => Settled(history, i, slot)
    case Finishing => Settled(history, i, slot)
    case Done => Settled(history, i, slot)
  }

  predicate ItemOk(s: State, i: nat)
    requires i < |s.stages| == |s.slots|
  {
    (s.stages[i].Unspawned? <==> i >= s.spawned) && StageOk(s.stages[i], i, History(s.log, i), s.slots[i])
  }

  ghost predicate Inv(capacity: nat, s: State) {
    && |s.slots| == |s.stages| && s.spawned <= |s.stages|
    && s.tokens == InsideAll(s.stages) <= capacity
    && s.pending == LiveAll(s.stages)
    && (s.returned ==> s.spawned == |s.stages| && s.pending == 0)
    && forall i: nat :: i < |s.stages| ==> ItemOk(s, i)
  }

  function Ranking(s: State): nat { AheadAll(s.stages) + (if s.returned then 0 else 1) }

  lemma Logged(log: seq<Call>, call: Call, i: nat)
    ensures History(log + [call], i) == History(log, i) + (if call.i == i then [call] else [])
  {
    assert (log + [call])[..|log|] == log;
  }

  /** A call about request j leaves what holds of request i alone. */
  lemma OtherCallKeepsItem(s: State, s': State, i: nat, call: Call)
    requires i < |s.stages| == |s.slots| && |s'.stages| == |s'.slots| == |s.stages| && ItemOk(s, i)
    requires call.i != i && s'.log == s.log + [call] && s'.spawned == s.spawned
    requires s'.stages[i] == s.stages[i] && s'.slots[i] == s.slots[i]
    ensures ItemOk(s', i)
  {
    Logged(s.log, call, i);
  }

  lemma ValidateSettles(history: seq<Call>, i: nat, verdict: Option<Failure>)
    requires history == []
    ensures if verdict.Some? then StageOk(Releasing, i, history + [Validated(i, verdict)], Item([], verdict))
            else StageOk(Processing, i, history + [Validated(i, verdict)], Blank())
  {
    assert history + [Validated(i, verdict)] == [Validated(i, verdict)];
  }

  lemma ProcessSettles(history: seq<Call>, i: nat, item: Item)
    requires history == [Validated(i, None)]
    ensures StageOk(Releasing, i, history + [Processed(i, item)], item)
  {
    assert history + [Processed(i, item)] == [Validated(i, None), Processed(i, item)];
  }

  /** Validate and Process calls settle the slot they belong to. */
  lemma CallKeepsItem(capacity: nat, s: State, step: Step, i: nat)
    requires Can(capacity, s, step) && (step.Validate? || step.Process?)
    requires i < |s.stages| && ItemOk(s, i)
    ensures ItemOk(Do(capacity, s, step), i)
  {
    var call := if step.Validate? then Validated(step.i, step.verdict) else Processed(step.i, step.item);
    if step.i != i {
      OtherCallKeepsItem(s, Do(capacity, s, step), i, call);
    } else {
      Logged(s.log, call, i);
      if step.Validate? { ValidateSettles(History(s.log, i), i, step.verdict); }
      else { ProcessSettles(History(s.log, i), i, step.item); }
    }
  }

  lemma StepKeepsItem(capacity: nat, s: State, step: Step, i: nat)
    requires Can(capacity, s, step) && i < |s.stages| && ItemOk(s, i)
    requires s.spawned < |s.stages| ==> ItemOk(s, s.spawned)
    ensures ItemOk(Do(capacity, s, step), i)
  {
    if step.Validate? || step.Process? {
      CallKeepsItem(capacity, s, step, i);
    } else {
      assert Do(capacity, s, step).log == s.log && Do(capacity, s, step).slots == s.slots;
    }
  }

  /** The goroutine a step moves. */
  function Mover(s: State, step: Step): nat
    requires !step.Return?
  {
    if step.Spawn? then s.spawned else step.i
  }

  /** A step moves one goroutine, and the counters by as much as that changes the counts. */
  lemma StepMoves(capacity: nat, s: State, step: Step)
    requires Can(capacity, s, step) && !step.Return?
    requires s.spawned < |s.stages| ==> s.stages[s.spawned].Unspawned?
    ensures
      var s' := Do(capacity, s, step);
      var i := Mover(s, step);
      && i < |s.stages| && s'.stages == s.stages[i := s'.stages[i]] && s'.returned == s.returned
      && s'.tokens - s.tokens == Inside(s'.stages[i]) - Inside(s.stages[i])
      && s'.pending - s.pending == Live(s'.stages[i]) - Live(s.stages[i])
      && Ahead(s'.stages[i]) < Ahead(s.stages[i])
      && (s'.tokens <= s.tokens || s'.tokens <= capacity)
  {
  }

  lemma StepCounts(capacity: nat, s: State, step: Step)
    requires Inv(capacity, s) && Can(capacity, s, step)
    ensures var s' := Do(capacity, s, step);
      && s'.tokens == InsideAll(s'.stages) <= capacity && s'.pending == LiveAll(s'.stages)
      && Ranking(s') < Ranking(s)
  {
    if !step.Return? {
      assert s.spawned < |s.stages| ==> ItemOk(s, s.spawned);
      StepMoves(capacity, s, step);
      Moved(s.stages, Mover(s, step), Do(capacity, s, step).stages[Mover(s, step)]);
    }
  }

  lemma StepKeepsInv(capacity: nat, s: State, step: Step)
    requires Inv(capacity, s) && Can(capacity, s, step)
    ensures Inv(capacity, Do(capacity, s, step)) && Ranking(Do(capacity, s, step)) < Ranking(s)
  {
    StepCounts(capacity, s, step);
    assert s.spawned < |s.stages| ==> ItemOk(s, s.spawned);
    forall i: nat | i < |s.stages| ensures ItemOk(Do(capacity, s, step), i) { StepKeepsItem(capacity, s, step, i); }
  }

  lemma InitialInv(capacity: nat, n: nat)
    ensures Inv(capacity, Initial(n)) && Ranking(Initial(n)) == 6 * n + 1
  {
    AllUnspawned(n);
  }

  // ---------------------------------------------------------------- whole runs

  ghost predicate CanRun(capacity: nat, s: State, steps: seq<Step>)
    decreases |steps|
  {
    steps == [] || (Can(capacity, s, steps[0]) && CanRun(capacity, Do(capacity, s, steps[0]), steps[1..]))
  }

  ghost function Run(capacity: nat, s: State, steps: seq<Step>): State
    requires CanRun(capacity, s, steps)
    decreases |steps|
  {
    if steps == [] then s else Run(capacity, Do(capacity, s, steps[0]), steps[1..])
  }

  lemma {:induction false} RunKeepsInv(capacity: nat, s: State, steps: seq<Step>)
    requires Inv(capacity, s) && CanRun(capacity, s, steps)
    ensures Inv(capacity, Run(capacity, s, steps)) && |Run(capacity, s, steps).stages| == |s.stages|
    ensures |steps| + Ranking(Run(capacity, s, steps)) <= Ranking(s)
    decreases |steps|
  {
    if steps != [] {
      StepKeepsInv(capacity, s, steps[0]);
      RunKeepsInv(capacity, Do(capacity, s, steps[0]), steps[1..]);
    }
  }

  /** In every interleaving at most `capacity` goroutines are between acquire and release, the
      semaphore holds one token for each of them, and the run is at most six steps a request and one
      more long: no schedule goes on for ever. */
  lemma RunsAreBounded(capacity: nat, n: nat, steps: seq<Step>)
    requires CanRun(capacity, Initial(n), steps)
    ensures
      var s := Run(capacity, Initial(n), steps);
      InsideAll(s.stages) == s.tokens <= capacity && |steps| <= 6 * n + 1
  {
    InitialInv(capacity, n);
    RunKeepsInv(capacity, Initial(n), steps);
  }

  /** When ProcessBatch returns, every slot holds its own request's outcome, Validate ran once for it,
      and Process ran once if Validate passed and not at all otherwise. */
  lemma ReturnedSlotsAreSettled(capacity: nat, n: nat, steps: seq<Step>, i: nat)
    requires CanRun(capacity, Initial(n), steps) && i < n
    requires Run(capacity, Initial(n), steps).returned
    ensures
      var s := Run(capacity, Initial(n), steps);
      |s.slots| == n && Settled(History(s.log, i), i, s.slots[i])
  {
    InitialInv(capacity, n);
    RunKeepsInv(capacity, Initial(n), steps);
    var s := Run(capacity, Initial(n), steps);
    CountsAreSums(s.stages, i);
    assert ItemOk(s, i);
  }

  // ---------------------------------------------------------------- deadlock

  ghost predicate Halted(capacity: nat, s: State) { forall step :: !Can(capacity, s, step) }

  /** The step a live goroutine can take; only an acquire can be made to wait, and only for a token. */
  lemma LiveCanMove(capacity: nat, s: State, i: nat)
    requires Inv(capacity, s) && i < |s.stages| && Live(s.stages[i]) == 1
    ensures (s.stages[i] == Acquiring && s.tokens == capacity) || !Halted(capacity, s)
  {
    CountsAreSums(s.stages, i);
    assert At(s, i, s.stages[i]);
    match s.stages[i]
    case Acquiring => assert s.tokens < capacity ==> Can(capacity, s, Acquire(i));
    case Validating => assert Can(capacity, s, Validate(i, None));
    case Processing => assert Can(capacity, s, Process(i, Blank()));
    case Releasing => assert Can(capacity, s, Release(i));
    case Finishing => assert Can(capacity, s, Finish(i));
  }

  /** A state in which nothing can move either has returned or has no semaphore to acquire. */
  lemma HaltedHasReturned(capacity: nat, s: State)
    requires Inv(capacity, s) && Halted(capacity, s)
    ensures s.returned || (capacity == 0 && |s.stages| > 0)
  {
    assert !Can(capacity, s, Spawn) && !Can(capacity, s, Return);
    if s.pending > 0 {
      var i := SomeoneLive(s.stages);
      LiveCanMove(capacity, s, i);
      if s.tokens > 0 {
        var j := SomeoneInside(s.stages);
        LiveCanMove(capacity, s, j);
      }
    }
  }

  /** Without capacity nobody gets past the acquire, so the wait group never comes down. */
  lemma NobodyReturnsWithoutCapacity(s: State)
    requires Inv(0, s) && |s.stages| > 0 && s.stages[0] in {Unspawned, Acquiring}
    ensures !s.returned
    ensures forall step :: Can(0, s, step) ==> Do(0, s, step).stages[0] in {Unspawned, Acquiring}
  {
    assert ItemOk(s, 0);
    CountsAreSums(s.stages, 0);
    forall step | Can(0, s, step) ensures Do(0, s, step).stages[0] in {Unspawned, Acquiring} {}
  }

  lemma {:induction false} StaysAtTheDoor(s: State, steps: seq<Step>)
    requires Inv(0, s) && |s.stages| > 0 && s.stages[0] in {Unspawned, Acquiring} && CanRun(0, s, steps)
    ensures !Run(0, s, steps).returned
    decreases |steps|
  {
    NobodyReturnsWithoutCapacity(s);
    if steps != [] {
      StepKeepsInv(0, s, steps[0]);
      StaysAtTheDoor(Do(0, s, steps[0]), steps[1..]);
    }
  }

  /** However the goroutines are scheduled, a run that has come to a halt has returned, exactly when
      the semaphore has room or there is nothing to do; otherwise it is deadlocked. */
  lemma HaltsByReturningIff(capacity: nat, n: nat, steps: seq<Step>)
    requires CanRun(capacity, Initial(n), steps) && Halted(capacity, Run(capacity, Initial(n), steps))
    ensures Run(capacity, Initial(n), steps).returned <==> capacity >= 1 || n == 0
  {
    InitialInv(capacity, n);
    RunKeepsInv(capacity, Initial(n), steps);
    HaltedHasReturned(capacity, Run(capacity, Initial(n), steps));
    if capacity == 0 && n > 0 { StaysAtTheDoor(Initial(n), steps); }
  }

  // ---------------------------------------------------------------- schedule independence

  /** What Validate and Process answer for each request, whenever they are asked. */
  datatype Answers = Answers(verdicts: seq<Option<Failure>>, items: seq<Item>)

  predicate Obeys(a: Answers, call: Call)
    requires |a.verdicts| == |a.items|
  {
    && call.i < |a.verdicts|
    && (call.Validated? ==> call.verdict == a.verdicts[call.i])
    && (call.Processed? ==> call.item == a.items[call.i])
  }

  predicate StepObeys(a: Answers, step: Step)
    requires |a.verdicts| == |a.items|
  {
    && (step.Validate? ==> Obeys(a, Validated(step.i, step.verdict)))
    && (step.Process? ==> Obeys(a, Processed(step.i, step.item)))
  }

  /** What request after request would give, one by one. */
  function OneByOne(a: Answers): seq<Item>
    requires |a.verdicts| == |a.items|
  {
    seq(|a.items|, i requires 0 <= i < |a.items| => if a.verdicts[i].Some? then Item([], a.verdicts[i]) else a.items[i])
  }

  lemma {:induction false} RunObeys(capacity: nat, s: State, steps: seq<Step>, a: Answers)
    requires |a.verdicts| == |a.items| && CanRun(capacity, s, steps)
    requires forall call :: call in s.log ==> Obeys(a, call)
    requires forall step :: step in steps ==> StepObeys(a, step)
    ensures forall call :: call in Run(capacity, s, steps).log ==> Obeys(a, call)
    decreases |steps|
  {
    if steps != [] {
      assert StepObeys(a, steps[0]);
      RunObeys(capacity, Do(capacity, s, steps[0]), steps[1..], a);
    }
  }

  lemma {:induction false} HistoryIsLogged(log: seq<Call>, i: nat)
    ensures forall call :: call in History(log, i) ==> call in log && call.i == i
    decreases |log|
  {
    if log != [] { HistoryIsLogged(log[..|log| - 1], i); }
  }

  /** Every schedule that returns leaves the same slice, the one request after request would leave. */
  lemma ScheduleDoesNotMatter(capacity: nat, steps: seq<Step>, a: Answers)
    requires |a.verdicts| == |a.items| && CanRun(capacity, Initial(|a.items|), steps)
    requires forall step :: step in steps ==> StepObeys(a, step)
    requires Run(capacity, Initial(|a.items|), steps).returned
    ensures Run(capacity, Initial(|a.items|), steps).slots == OneByOne(a)
  {
    var s := Run(capacity, Initial(|a.items|), steps);
    InitialInv(capacity, |a.items|);
    RunKeepsInv(capacity, Initial(|a.items|), steps);
    RunObeys(capacity, Initial(|a.items|), steps, a);
    forall i: nat | i < |a.items| ensures s.slots[i] == OneByOne(a)[i] {
      ReturnedSlotsAreSettled(capacity, |a.items|, steps, i);
      HistoryIsLogged(s.log, i);
      var history := History(s.log, i);
      assert Obeys(a, history[0]);
      assert |history| == 2 ==> history[1] in s.log && Obeys(a, history[1]);
    }
  }
}
