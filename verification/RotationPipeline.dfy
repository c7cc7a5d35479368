/** The rotation pipeline and the callers that use it (internal/pipelines/key_rotation.go,
    internal/service/key_manager.go, RotateKey): two bounded channels, a fixed set of workers whose
    context is never cancelled, and callers that enqueue, then wait for A result or give up.

    Requests, and the results made from them, are named by the call they came from. */
module RotationPipeline {
  type CallId = nat

  datatype Config = Config(workerCount: nat, queueDepth: nat)

  datatype Worker = Waiting | Busy(call: CallId) | Sending(call: CallId)

  /** `Got(from)` received the result of call `from`. */
  datatype Caller = Awaiting | Got(from: CallId) | GaveUp | Refused

  datatype State = State(
    requests: seq<CallId>, workers: seq<Worker>, results: seq<CallId>,
    callers: map<CallId, Caller>, processed: seq<CallId>, delivered: seq<CallId>)

  datatype Step =
    | Enqueue(c: CallId)
    | EnqueueDirect(c: CallId, w: nat)
    | Take(w: nat)
    | Process(w: nat)
    | Put(w: nat)
    | PutDirect(w: nat, c: CallId)
    | Receive(c: CallId)
    | Abandon(c: CallId)

  function Initial(cfg: Config): State {
    State([], seq(cfg.workerCount, _ => Waiting), [], map[], [], [])
  }

  predicate IsAwaiting(s: State, c: CallId) { c in s.callers && s.callers[c].Awaiting? }

  /** The direct steps are channel operations that meet a waiting receiver. */
  predicate Can(cfg: Config, s: State, step: Step) {
    match step
    case Enqueue(c) => c !in s.callers
    case EnqueueDirect(c, w) => c !in s.callers && s.requests == [] && w < |s.workers| && s.workers[w].Waiting?
    case Take(w) => w < |s.workers| && s.workers[w].Waiting? && s.requests != []
    case Process(w) => w < |s.workers| && s.workers[w].Busy?
    case Put(w) => w < |s.workers| && s.workers[w].Sending? && |s.results| < cfg.queueDepth
    case PutDirect(w, c) => w < |s.workers| && s.workers[w].Sending? && s.results == [] && IsAwaiting(s, c)
    case Receive(c) => IsAwaiting(s, c) && s.results != []
    case Abandon(c) => IsAwaiting(s, c)
  }

  function Gives(s: State, c: CallId, from: CallId): State {
    s.(callers := s.callers[c := Got(from)], delivered := s.delivered + [from])
  }

  function Do(cfg: Config, s: State, step: Step): State
    requires Can(cfg, s, step)
  {
    match step
    case Enqueue(c) =>
      if |s.requests| < cfg.queueDepth then s.(requests := s.requests + [c], callers := s.callers[c := Awaiting])
      else s.(callers := s.callers[c := Refused])
    case EnqueueDirect(c, w) => s.(workers := s.workers[w := Busy(c)], callers := s.callers[c := Awaiting])
    case Take(w) => s.(requests := s.requests[1..], workers := s.workers[w := Busy(s.requests[0])])
    case Process(w) =>
      s.(workers := s.workers[w := Sending(s.workers[w].call)], processed := s.processed + [s.workers[w].call])
    case Put(w) => s.(workers := s.workers[w := Waiting], results := s.results + [s.workers[w].call])
    case PutDirect(w, c) => Gives(s.(workers := s.workers[w := Waiting]), c, s.workers[w].call)
    case Receive(c) => Gives(s.(results := s.results[1..]), c, s.results[0])
    case Abandon(c) => s.(callers := s.callers[c := GaveUp])
  }

  // ---------------------------------------------------------------- conservation

  /** How often `c` occurs. */
  function Count(calls: seq<CallId>, c: CallId): nat {
    if calls == [] then 0 else (if calls[0] == c then 1 else 0) + Count(calls[1..], c)
  }

  function AtWorker(w: Worker, c: CallId): nat { if !w.Waiting? && w.call == c then 1 else 0 }

  function SentBy(w: Worker, c: CallId): nat { if w.Sending? && w.call == c then 1 else 0 }

  function AtWorkers(workers: seq<Worker>, c: CallId): nat {
    if workers == [] then 0 else AtWorker(workers[0], c) + AtWorkers(workers[1..], c)
  }

  function SentByWorkers(workers: seq<Worker>, c: CallId): nat {
    if workers == [] then 0 else SentBy(workers[0], c) + SentByWorkers(workers[1..], c)
  }

  predicate Accepted(s: State, c: CallId) { c in s.callers && !s.callers[c].Refused? }

  /** Queued, at a worker, or in the result buffer. */
  function InFlight(s: State, c: CallId): nat {
    Count(s.requests, c) + AtWorkers(s.workers, c) + Count(s.results, c)
  }

  /** An accepted request is in exactly one place or its result has been delivered once; and it has
      been processed exactly as often as there is a result of it. */
  ghost predicate Conserved(s: State, c: CallId) {
    && InFlight(s, c) + Count(s.delivered, c) == (if Accepted(s, c) then 1 else 0)
    && Count(s.processed, c) == SentByWorkers(s.workers, c) + Count(s.results, c) + Count(s.delivered, c)
  }

  ghost predicate Inv(cfg: Config, s: State) {
    && |s.requests| <= cfg.queueDepth && |s.results| <= cfg.queueDepth && |s.workers| == cfg.workerCount
    && forall c :: Conserved(s, c)
  }

  lemma {:induction false} WorkersUpdate(workers: seq<Worker>, w: nat, x: Worker, c: CallId)
    requires w < |workers|
    ensures AtWorkers(workers[w := x], c) + AtWorker(workers[w], c) == AtWorkers(workers, c) + AtWorker(x, c)
    ensures SentByWorkers(workers[w := x], c) + SentBy(workers[w], c) == SentByWorkers(workers, c) + SentBy(x, c)
    decreases |workers|
  {
    if w > 0 {
      WorkersUpdate(workers[1..], w - 1, x, c);
      assert workers[w := x][1..] == workers[1..][w - 1 := x];
    } else {
      assert workers[0 := x][1..] == workers[1..];
    }
  }

  lemma {:induction false} IdleWorkersHoldNothing(workers: seq<Worker>, c: CallId)
    requires forall w :: 0 <= w < |workers| ==> workers[w].Waiting?
    ensures AtWorkers(workers, c) == 0 && SentByWorkers(workers, c) == 0
    decreases |workers|
  {
    if workers != [] { IdleWorkersHoldNothing(workers[1..], c); }
  }

  lemma {:induction false} CountAppend(calls: seq<CallId>, x: CallId, c: CallId)
    ensures Count(calls + [x], c) == Count(calls, c) + (if x == c then 1 else 0)
    decreases |calls|
  {
    if calls != [] {
      CountAppend(calls[1..], x, c);
      assert (calls + [x])[1..] == calls[1..] + [x];
    }
  }

  lemma DirectEnqueueConserves(cfg: Config, s: State, step: Step, c: CallId)
    requires Conserved(s, c) && Can(cfg, s, step) && step.EnqueueDirect?
    ensures Conserved(Do(cfg, s, step), c)
  {
    WorkersUpdate(s.workers, step.w, Busy(step.c), c);
  }

  lemma EnqueueConserves(cfg: Config, s: State, step: Step, c: CallId)
    requires Conserved(s, c) && Can(cfg, s, step) && (step.Enqueue? || step.EnqueueDirect?)
    ensures Conserved(Do(cfg, s, step), c)
  {
    assert step.c !in s.callers;
    if step.EnqueueDirect? {
      DirectEnqueueConserves(cfg, s, step, c);
    } else {
      CountAppend(s.requests, step.c, c);
    }
  }

  lemma WorkerConserves(cfg: Config, s: State, step: Step, c: CallId)
    requires Conserved(s, c) && Can(cfg, s, step) && (step.Take? || step.Process? || step.Put?)
    ensures Conserved(Do(cfg, s, step), c)
  {
    if !step.Take? {
      CountAppend(s.processed, s.workers[step.w].call, c);
      CountAppend(s.results, s.workers[step.w].call, c);
    }
    WorkersUpdate(s.workers, step.w, Do(cfg, s, step).workers[step.w], c);
  }

  lemma DeliveryConserves(cfg: Config, s: State, step: Step, c: CallId)
    requires Conserved(s, c) && Can(cfg, s, step) && (step.PutDirect? || step.Receive? || step.Abandon?)
    ensures Conserved(Do(cfg, s, step), c)
  {
    if step.PutDirect? {
      WorkersUpdate(s.workers, step.w, Waiting, c);
      CountAppend(s.delivered, s.workers[step.w].call, c);
    } else if step.Receive? {
      CountAppend(s.delivered, s.results[0], c);
    }
  }

  lemma StepConserves(cfg: Config, s: State, step: Step, c: CallId)
    requires Conserved(s, c) && Can(cfg, s, step)
    ensures Conserved(Do(cfg, s, step), c)
  {
    if step.Enqueue? || step.EnqueueDirect? {
      EnqueueConserves(cfg, s, step, c);
    } else if step.Take? || step.Process? || step.Put? {
      WorkerConserves(cfg, s, step, c);
    } else {
      DeliveryConserves(cfg, s, step, c);
    }
  }

  lemma StepKeepsInv(cfg: Config, s: State, step: Step)
    requires Inv(cfg, s) && Can(cfg, s, step)
    ensures Inv(cfg, Do(cfg, s, step))
  {
    forall c ensures Conserved(Do(cfg, s, step), c) { StepConserves(cfg, s, step, c); }
  }

  lemma InitialInv(cfg: Config)
    ensures Inv(cfg, Initial(cfg))
  {
    forall c ensures Conserved(Initial(cfg), c) { IdleWorkersHoldNothing(Initial(cfg).workers, c); }
  }

  // ---------------------------------------------------------------- whole runs

  ghost predicate CanRun(cfg: Config, s: State, steps: seq<Step>)
    decreases |steps|
  {
    steps == [] || (Can(cfg, s, steps[0]) && CanRun(cfg, Do(cfg, s, steps[0]), steps[1..]))
  }

  ghost function Run(cfg: Config, s: State, steps: seq<Step>): State
    requires CanRun(cfg, s, steps)
    decreases |steps|
  {
    if steps == [] then s else Run(cfg, Do(cfg, s, steps[0]), steps[1..])
  }

  lemma {:induction false} RunKeepsInv(cfg: Config, s: State, steps: seq<Step>)
    requires Inv(cfg, s) && CanRun(cfg, s, steps)
    ensures Inv(cfg, Run(cfg, s, steps))
    decreases |steps|
  {
    if steps != [] {
      StepKeepsInv(cfg, s, steps[0]);
      RunKeepsInv(cfg, Do(cfg, s, steps[0]), steps[1..]);
    }
  }

  /** In every interleaving: an accepted request is queued, at one worker, buffered as a result, or
      delivered, in exactly one of these; it has been processed once if it has a result and not at all
      before; nothing else is; and neither buffer exceeds its depth. */
  lemma RequestsAreConserved(cfg: Config, steps: seq<Step>, c: CallId)
    requires CanRun(cfg, Initial(cfg), steps)
    ensures
      var s := Run(cfg, Initial(cfg), steps);
      && InFlight(s, c) + Count(s.delivered, c) == (if Accepted(s, c) then 1 else 0)
      && Count(s.processed, c) == SentByWorkers(s.workers, c) + Count(s.results, c) + Count(s.delivered, c)
      && |s.requests| <= cfg.queueDepth && |s.results| <= cfg.queueDepth
  {
    InitialInv(cfg);
    RunKeepsInv(cfg, Initial(cfg), steps);
    assert Conserved(Run(cfg, Initial(cfg), steps), c);
  }

  // ---------------------------------------------------------------- whose result is it

  /** One caller at a time, and none gives up. */
  predicate SoloStep(s: State, step: Step) {
    && !step.Abandon?
    && (step.Enqueue? || step.EnqueueDirect? ==> forall c :: c in s.callers ==> !s.callers[c].Awaiting?)
  }

  ghost predicate SoloRun(cfg: Config, s: State, steps: seq<Step>)
    requires CanRun(cfg, s, steps)
    decreases |steps|
  {
    steps == [] || (SoloStep(s, steps[0]) && SoloRun(cfg, Do(cfg, s, steps[0]), steps[1..]))
  }

  ghost predicate SoloInv(s: State) {
    && (forall c, d :: IsAwaiting(s, c) && IsAwaiting(s, d) ==> c == d)
    && (forall c :: InFlight(s, c) > 0 ==> IsAwaiting(s, c))
    && (forall c :: c in s.callers && s.callers[c].Got? ==> s.callers[c].from == c)
    && (forall c :: c in s.callers ==> !s.callers[c].GaveUp?)
  }

  lemma {:induction false} WorkerIsInFlight(workers: seq<Worker>, w: nat)
    requires w < |workers| && !workers[w].Waiting?
    ensures AtWorkers(workers, workers[w].call) > 0
    decreases |workers|
  {
    if w > 0 { WorkerIsInFlight(workers[1..], w - 1); }
  }

  lemma ReceivesOwn(cfg: Config, s: State, step: Step)
    requires SoloInv(s) && Can(cfg, s, step) && (step.Receive? || step.PutDirect?)
    ensures Do(cfg, s, step).callers == s.callers[step.c := Got(step.c)]
    ensures Do(cfg, s, step).delivered == s.delivered + [step.c]
  {
    if step.Receive? {
      assert InFlight(s, s.results[0]) > 0;
    } else {
      WorkerIsInFlight(s.workers, step.w);
      assert InFlight(s, s.workers[step.w].call) > 0;
    }
  }

  lemma SoloStepKeepsOneAwaiting(cfg: Config, s: State, step: Step, c: CallId, d: CallId)
    requires SoloInv(s) && Can(cfg, s, step) && SoloStep(s, step)
    requires IsAwaiting(Do(cfg, s, step), c) && IsAwaiting(Do(cfg, s, step), d)
    ensures c == d
  {
    assert IsAwaiting(s, c) || ((step.Enqueue? || step.EnqueueDirect?) && c == step.c);
    assert IsAwaiting(s, d) || ((step.Enqueue? || step.EnqueueDirect?) && d == step.c);
  }

  lemma SoloStepKeepsCaller(cfg: Config, s: State, step: Step, c: CallId)
    requires SoloInv(s) && Can(cfg, s, step) && SoloStep(s, step) && c in Do(cfg, s, step).callers
    ensures var caller := Do(cfg, s, step).callers[c]; !caller.GaveUp? && (caller.Got? ==> caller.from == c)
  {
    if step.Receive? || step.PutDirect? { ReceivesOwn(cfg, s, step); }
  }

  /** Whatever is in flight is awaited: a caller that is no longer waiting has its own result. */
  lemma SoloStepKeepsAwaited(cfg: Config, s: State, step: Step, c: CallId)
    requires Conserved(s, c) && SoloInv(s) && Can(cfg, s, step) && SoloStep(s, step) && InFlight(Do(cfg, s, step), c) > 0
    ensures IsAwaiting(Do(cfg, s, step), c)
  {
    var s' := Do(cfg, s, step);
    StepConserves(cfg, s, step, c);
    if step.Receive? || step.PutDirect? {
      ReceivesOwn(cfg, s, step);
      CountAppend(s.delivered, step.c, c);
    }
  }

  lemma SoloStepKeeps(cfg: Config, s: State, step: Step)
    requires Inv(cfg, s) && SoloInv(s) && Can(cfg, s, step) && SoloStep(s, step)
    ensures SoloInv(Do(cfg, s, step))
  {
    var s' := Do(cfg, s, step);
    forall c, d | IsAwaiting(s', c) && IsAwaiting(s', d) ensures c == d { SoloStepKeepsOneAwaiting(cfg, s, step, c, d); }
    forall c | c in s'.callers ensures !s'.callers[c].GaveUp? && (s'.callers[c].Got? ==> s'.callers[c].from == c) {
      SoloStepKeepsCaller(cfg, s, step, c);
    }
    forall c | InFlight(s', c) > 0 ensures IsAwaiting(s', c) {
      assert Conserved(s, c);
      SoloStepKeepsAwaited(cfg, s, step, c);
    }
  }

  lemma {:induction false} SoloRunKeeps(cfg: Config, s: State, steps: seq<Step>)
    requires Inv(cfg, s) && SoloInv(s) && CanRun(cfg, s, steps) && SoloRun(cfg, s, steps)
    ensures SoloInv(Run(cfg, s, steps))
    decreases |steps|
  {
    if steps != [] {
      SoloStepKeeps(cfg, s, steps[0]);
      StepKeepsInv(cfg, s, steps[0]);
      SoloRunKeeps(cfg, Do(cfg, s, steps[0]), steps[1..]);
    }
  }

  /** With one caller at a time, none of which gives up, whoever receives a result receives its own. */
  lemma SoloCallersGetTheirOwn(cfg: Config, steps: seq<Step>, c: CallId)
    requires CanRun(cfg, Initial(cfg), steps) && SoloRun(cfg, Initial(cfg), steps)
    requires c in Run(cfg, Initial(cfg), steps).callers && Run(cfg, Initial(cfg), steps).callers[c].Got?
    ensures Run(cfg, Initial(cfg), steps).callers[c] == Got(c)
  {
    InitialInv(cfg);
    forall d ensures InFlight(Initial(cfg), d) == 0 { IdleWorkersHoldNothing(Initial(cfg).workers, d); }
    SoloRunKeeps(cfg, Initial(cfg), steps);
  }

  // ---------------------------------------------------------------- results are not addressed

  /** Some caller was handed the result of another call. */
  ghost predicate Misdelivered(s: State) {
    exists c :: c in s.callers && s.callers[c].Got? && s.callers[c].from != c
  }

  function WaitingCount(workers: seq<Worker>): nat {
    if workers == [] then 0 else (if workers[0].Waiting? then 1 else 0) + WaitingCount(workers[1..])
  }

  predicate HeldByWorker(workers: seq<Worker>, x: CallId) {
    exists w :: 0 <= w < |workers| && !workers[w].Waiting? && workers[w].call == x
  }

  /** The calls whose result can be the next to be handed over: the first buffered one; or, when none is
      buffered, any that a worker holds or that a waiting worker could still get at. */
  ghost predicate CanBeNext(s: State, x: CallId) {
    if s.results != [] then s.results[0] == x
    else HeldByWorker(s.workers, x) || exists i :: 0 <= i < |s.requests| && i < WaitingCount(s.workers) && s.requests[i] == x
  }

  /** Some caller is waiting while the result of another call can be next. */
  ghost predicate AtRisk(s: State) {
    exists c, x :: IsAwaiting(s, c) && CanBeNext(s, x) && x != c
  }

  predicate IsNewCall(step: Step) { step.Enqueue? || step.EnqueueDirect? }

  /** The run brings no new call. */
  predicate NoNewCalls(steps: seq<Step>) { forall step :: step in steps ==> !IsNewCall(step) }

  ghost predicate Reaches(cfg: Config, s: State, steps: seq<Step>) {
    CanRun(cfg, s, steps) && NoNewCalls(steps) && Misdelivered(Run(cfg, s, steps))
  }

  lemma Before(cfg: Config, s: State, step: Step, rest: seq<Step>) returns (steps: seq<Step>)
    requires Can(cfg, s, step) && CanRun(cfg, Do(cfg, s, step), rest)
    ensures CanRun(cfg, s, steps) && Run(cfg, s, steps) == Run(cfg, Do(cfg, s, step), rest)
    ensures steps == [step] + rest
  {
    steps := [step] + rest;
    assert steps[1..] == rest;
  }

  lemma {:induction false} WaitingUpdate(workers: seq<Worker>, w: nat, x: Worker)
    requires w < |workers|
    ensures WaitingCount(workers[w := x]) + (if workers[w].Waiting? then 1 else 0) == WaitingCount(workers) + (if x.Waiting? then 1 else 0)
    decreases |workers|
  {
    if w > 0 {
      WaitingUpdate(workers[1..], w - 1, x);
      assert workers[w := x][1..] == workers[1..][w - 1 := x];
    } else {
      assert workers[0 := x][1..] == workers[1..];
    }
  }

  lemma {:induction false} SomeoneWaits(workers: seq<Worker>) returns (w: nat)
    requires WaitingCount(workers) > 0
    ensures w < |workers| && workers[w].Waiting?
    decreases |workers|
  {
    if workers[0].Waiting? {
      w := 0;
    } else {
      var v := SomeoneWaits(workers[1..]);
      w := v + 1;
    }
  }

  /** A result that can be next can be handed to any waiting caller. */
  lemma {:induction false} NextCanGoTo(cfg: Config, s: State, c: CallId, x: CallId) returns (steps: seq<Step>)
    requires IsAwaiting(s, c) && CanBeNext(s, x)
    ensures CanRun(cfg, s, steps) && NoNewCalls(steps)
    ensures c in Run(cfg, s, steps).callers && Run(cfg, s, steps).callers[c] == Got(x)
    decreases |s.requests|
  {
    if s.results != [] {
      steps := Before(cfg, s, Receive(c), []);
    } else if HeldByWorker(s.workers, x) {
      var w :| 0 <= w < |s.workers| && !s.workers[w].Waiting? && s.workers[w].call == x;
      steps := HeldCanGoTo(cfg, s, c, w);
    } else {
      var i :| 0 <= i < |s.requests| && i < WaitingCount(s.workers) && s.requests[i] == x;
      var w := SomeoneWaits(s.workers);
      var s' := Do(cfg, s, Take(w));
      WaitingUpdate(s.workers, w, Busy(s.requests[0]));
      assert CanBeNext(s', x) by {
        if i == 0 {
          assert s'.workers[w].call == x;
        } else {
          assert s'.requests[i - 1] == x;
        }
      }
      var rest := NextCanGoTo(cfg, s', c, x);
      steps := Before(cfg, s, Take(w), rest);
    }
  }

  lemma HeldCanGoTo(cfg: Config, s: State, c: CallId, w: nat) returns (steps: seq<Step>)
    requires IsAwaiting(s, c) && s.results == [] && w < |s.workers| && !s.workers[w].Waiting?
    ensures CanRun(cfg, s, steps) && NoNewCalls(steps)
    ensures c in Run(cfg, s, steps).callers && Run(cfg, s, steps).callers[c] == Got(s.workers[w].call)
  {
    if s.workers[w].Busy? {
      var s' := Do(cfg, s, Process(w));
      var last := Before(cfg, s', PutDirect(w, c), []);
      steps := Before(cfg, s, Process(w), last);
    } else {
      steps := Before(cfg, s, PutDirect(w, c), []);
    }
  }

  /** Steps inside the pipeline bring no other result to the front. */
  lemma InnerStepKeepsNext(cfg: Config, s: State, step: Step, x: CallId)
    requires Can(cfg, s, step) && (step.Take? || step.Process? || step.Put?) && CanBeNext(Do(cfg, s, step), x)
    ensures CanBeNext(s, x)
  {
    if step.Take? {
      TakeKeepsNext(cfg, s, step.w, x);
    } else if step.Process? {
      WaitingUpdate(s.workers, step.w, Sending(s.workers[step.w].call));
      if s.results == [] && HeldByWorker(Do(cfg, s, step).workers, x) {
        HeldOnUpdate(s.workers, step.w, Sending(s.workers[step.w].call), x);
      }
    }
  }

  lemma HeldOnUpdate(workers: seq<Worker>, w: nat, worker: Worker, x: CallId)
    requires w < |workers| && HeldByWorker(workers[w := worker], x)
    ensures HeldByWorker(workers, x) || (!worker.Waiting? && worker.call == x)
  {
    var v :| 0 <= v < |workers| && !workers[w := worker][v].Waiting? && workers[w := worker][v].call == x;
    if v != w { assert !workers[v].Waiting? && workers[v].call == x; }
  }

  lemma TakeKeepsNext(cfg: Config, s: State, w: nat, x: CallId)
    requires Can(cfg, s, Take(w)) && CanBeNext(Do(cfg, s, Take(w)), x)
    ensures CanBeNext(s, x)
  {
    if s.results == [] {
      var taken := Busy(s.requests[0]);
      var s' := Do(cfg, s, Take(w));
      WaitingUpdate(s.workers, w, taken);
      if HeldByWorker(s'.workers, x) {
        HeldOnUpdate(s.workers, w, taken, x);
        assert s.requests[0] == x ==> 0 < WaitingCount(s.workers);
      } else {
        var i :| 0 <= i < |s'.requests| && i < WaitingCount(s'.workers) && s'.requests[i] == x;
        assert s.requests[i + 1] == x && i + 1 < WaitingCount(s.workers);
      }
    }
  }

  /** Off risk, a delivery goes to the one caller that waits, which is its own. */
  lemma SafeDelivery(cfg: Config, s: State, step: Step)
    requires Can(cfg, s, step) && (step.Receive? || step.PutDirect?) && !AtRisk(s) && !Misdelivered(s)
    ensures !AtRisk(Do(cfg, s, step)) && !Misdelivered(Do(cfg, s, step))
  {
    var x := if step.Receive? then s.results[0] else s.workers[step.w].call;
    assert CanBeNext(s, x);
    var s' := Do(cfg, s, step);
    assert x == step.c;
    forall d ensures !IsAwaiting(s', d) { assert IsAwaiting(s, d) ==> d == x; }
  }

  lemma SafeStep(cfg: Config, s: State, step: Step)
    requires Can(cfg, s, step) && !IsNewCall(step) && !AtRisk(s) && !Misdelivered(s)
    ensures !AtRisk(Do(cfg, s, step)) && !Misdelivered(Do(cfg, s, step))
  {
    var s' := Do(cfg, s, step);
    if step.Receive? || step.PutDirect? {
      SafeDelivery(cfg, s, step);
    } else {
      forall c, x | IsAwaiting(s', c) && CanBeNext(s', x) ensures x == c {
        if !step.Abandon? { InnerStepKeepsNext(cfg, s, step, x); }
        assert IsAwaiting(s, c) && CanBeNext(s, x);
      }
    }
  }

  lemma {:induction false} SafeRun(cfg: Config, s: State, steps: seq<Step>)
    requires CanRun(cfg, s, steps) && NoNewCalls(steps) && !AtRisk(s) && !Misdelivered(s)
    ensures !Misdelivered(Run(cfg, s, steps))
    decreases |steps|
  {
    if steps != [] {
      assert steps[0] in steps;
      SafeStep(cfg, s, steps[0]);
      SafeRun(cfg, Do(cfg, s, steps[0]), steps[1..]);
    }
  }

  /** The calls made so far can still end in a mix-up if and only if somebody is waiting while
      another's result can be next. */
  lemma MixUpIffAtRisk(cfg: Config, s: State)
    requires !Misdelivered(s)
    ensures (exists steps :: Reaches(cfg, s, steps)) <==> AtRisk(s)
  {
    if AtRisk(s) {
      var c, x :| IsAwaiting(s, c) && CanBeNext(s, x) && x != c;
      var steps := NextCanGoTo(cfg, s, c, x);
      assert Reaches(cfg, s, steps);
    } else {
      forall steps | CanRun(cfg, s, steps) && NoNewCalls(steps) ensures !Reaches(cfg, s, steps) { SafeRun(cfg, s, steps); }
    }
  }

  // ---------------------------------------------------------------- who is at risk

  /** What has been delivered is what callers have got. */
  ghost predicate Linked(s: State) {
    && (forall x :: x in s.delivered ==> SomeoneGot(s, x))
    && (forall c :: c in s.callers && s.callers[c].Got? ==> s.callers[c].from in s.delivered)
  }

  ghost predicate SomeoneGot(s: State, x: CallId) { exists c :: c in s.callers && s.callers[c] == Got(x) }

  lemma GotStays(cfg: Config, s: State, step: Step, x: CallId)
    requires Can(cfg, s, step) && SomeoneGot(s, x)
    ensures SomeoneGot(Do(cfg, s, step), x)
  {
    var c :| c in s.callers && s.callers[c] == Got(x);
    assert c in Do(cfg, s, step).callers && Do(cfg, s, step).callers[c] == Got(x);
  }

  lemma StepKeepsLinked(cfg: Config, s: State, step: Step)
    requires Linked(s) && Can(cfg, s, step)
    ensures Linked(Do(cfg, s, step))
  {
    var s' := Do(cfg, s, step);
    forall x | x in s'.delivered ensures SomeoneGot(s', x) {
      if x in s.delivered {
        GotStays(cfg, s, step, x);
      } else {
        assert s'.callers[step.c] == Got(x);
      }
    }
  }

  lemma {:induction false} RunKeepsLinked(cfg: Config, s: State, steps: seq<Step>)
    requires Linked(s) && CanRun(cfg, s, steps)
    ensures Linked(Run(cfg, s, steps))
    decreases |steps|
  {
    if steps != [] {
      StepKeepsLinked(cfg, s, steps[0]);
      RunKeepsLinked(cfg, Do(cfg, s, steps[0]), steps[1..]);
    }
  }

  lemma {:induction false} CountIsMembership(calls: seq<CallId>, x: CallId)
    ensures Count(calls, x) > 0 <==> x in calls
    decreases |calls|
  {
    if calls != [] { CountIsMembership(calls[1..], x); }
  }

  lemma {:induction false} AtWorkersIsHeld(workers: seq<Worker>, x: CallId)
    ensures AtWorkers(workers, x) > 0 <==> HeldByWorker(workers, x)
    decreases |workers|
  {
    if workers != [] {
      AtWorkersIsHeld(workers[1..], x);
      if HeldByWorker(workers[1..], x) {
        var w :| 0 <= w < |workers[1..]| && !workers[1..][w].Waiting? && workers[1..][w].call == x;
        assert !workers[w + 1].Waiting? && workers[w + 1].call == x;
      }
      if HeldByWorker(workers, x) {
        var w :| 0 <= w < |workers| && !workers[w].Waiting? && workers[w].call == x;
        if w > 0 { assert !workers[1..][w - 1].Waiting? && workers[1..][w - 1].call == x; }
      }
    }
  }

  lemma NextIsInFlight(s: State, x: CallId)
    requires CanBeNext(s, x)
    ensures InFlight(s, x) > 0
  {
    CountIsMembership(s.results, x);
    CountIsMembership(s.requests, x);
    AtWorkersIsHeld(s.workers, x);
  }

  /** With a worker and a request in flight something can be next. */
  lemma SomethingIsNext(s: State, c: CallId) returns (x: CallId)
    requires s.workers != [] && InFlight(s, c) > 0
    ensures CanBeNext(s, x)
  {
    CountIsMembership(s.results, c);
    CountIsMembership(s.requests, c);
    AtWorkersIsHeld(s.workers, c);
    if s.results != [] {
      x := s.results[0];
    } else if HeldByWorker(s.workers, c) {
      x := c;
    } else if s.workers[0].Waiting? {
      x := s.requests[0];
    } else {
      x := s.workers[0].call;
      assert HeldByWorker(s.workers, x);
    }
  }

  /** Nothing of a waiting caller has gone to another. */
  lemma AwaitedIsInFlight(s: State, c: CallId)
    requires Conserved(s, c) && Linked(s) && !Misdelivered(s) && IsAwaiting(s, c)
    ensures InFlight(s, c) == 1
  {
    CountIsMembership(s.delivered, c);
    assert c !in s.delivered;
  }

  /** Whoever has a request in flight is waiting for it or has given up. */
  lemma InFlightIsOpen(s: State, x: CallId)
    requires Conserved(s, x) && Linked(s) && !Misdelivered(s) && InFlight(s, x) > 0
    ensures x in s.callers && (s.callers[x].Awaiting? || s.callers[x].GaveUp?)
  {
    CountIsMembership(s.delivered, x);
  }

  ghost predicate TwoWait(s: State) { exists c, d :: IsAwaiting(s, c) && IsAwaiting(s, d) && c != d }

  /** Somebody waits, and the result of a call that was given up can come first. */
  ghost predicate AbandonedAhead(s: State) {
    exists c, x :: IsAwaiting(s, c) && CanBeNext(s, x) && x in s.callers && s.callers[x].GaveUp?
  }

  lemma AtRiskMeans(cfg: Config, s: State)
    requires Inv(cfg, s) && Linked(s) && !Misdelivered(s) && cfg.workerCount >= 1
    ensures AtRisk(s) <==> TwoWait(s) || AbandonedAhead(s)
  {
    if AtRisk(s) {
      var c, x :| IsAwaiting(s, c) && CanBeNext(s, x) && x != c;
      NextIsInFlight(s, x);
      assert Conserved(s, x);
      InFlightIsOpen(s, x);
      assert IsAwaiting(s, x) || s.callers[x].GaveUp?;
    }
    if TwoWait(s) {
      var c, d :| IsAwaiting(s, c) && IsAwaiting(s, d) && c != d;
      assert Conserved(s, c);
      AwaitedIsInFlight(s, c);
      var x := SomethingIsNext(s, c);
      assert x != c || x != d;
    }
    if AbandonedAhead(s) {
      var c, x :| IsAwaiting(s, c) && CanBeNext(s, x) && x in s.callers && s.callers[x].GaveUp?;
      assert x != c;
    }
  }

  lemma NothingMovesWithoutWorkers(s: State)
    requires s.workers == [] && s.results == []
    ensures !AtRisk(s)
  {
  }

  /** In every reachable state in which nobody has got another's result yet: the calls made so far can
      still end in a mix-up if and only if there is a worker and either two callers are waiting, or one
      is waiting while the result of a call that was given up can come first. */
  lemma MixUpPossibleIff(cfg: Config, before: seq<Step>)
    requires CanRun(cfg, Initial(cfg), before) && !Misdelivered(Run(cfg, Initial(cfg), before))
    ensures
      var s := Run(cfg, Initial(cfg), before);
      (exists steps :: Reaches(cfg, s, steps)) <==> cfg.workerCount >= 1 && (TwoWait(s) || AbandonedAhead(s))
  {
    var s := Run(cfg, Initial(cfg), before);
    InitialInv(cfg);
    RunKeepsInv(cfg, Initial(cfg), before);
    RunKeepsLinked(cfg, Initial(cfg), before);
    MixUpIffAtRisk(cfg, s);
    if cfg.workerCount >= 1 {
      AtRiskMeans(cfg, s);
    } else {
      CrampedRunKeeps(cfg, Initial(cfg), before);
      NothingMovesWithoutWorkers(s);
    }
  }

  /** One caller at a time, none giving up, is never at risk. */
  lemma SoloIsNeverAtRisk(cfg: Config, steps: seq<Step>)
    requires CanRun(cfg, Initial(cfg), steps) && SoloRun(cfg, Initial(cfg), steps)
    ensures !AtRisk(Run(cfg, Initial(cfg), steps)) && !Misdelivered(Run(cfg, Initial(cfg), steps))
  {
    var s := Run(cfg, Initial(cfg), steps);
    InitialInv(cfg);
    forall d ensures InFlight(Initial(cfg), d) == 0 { IdleWorkersHoldNothing(Initial(cfg).workers, d); }
    SoloRunKeeps(cfg, Initial(cfg), steps);
    forall x | CanBeNext(s, x) ensures IsAwaiting(s, x) { NextIsInFlight(s, x); }
  }

  // ---------------------------------------------------------------- which pipelines can mix results up

  /** There is never more than one request in the pipeline, or none is ever processed. */
  predicate Cramped(cfg: Config) { cfg.workerCount == 0 || (cfg.workerCount == 1 && cfg.queueDepth == 0) }

  ghost predicate CrampedInv(cfg: Config, s: State) {
    && |s.workers| == cfg.workerCount && s.results == [] && !Misdelivered(s)
    && (cfg.workerCount == 1 ==>
          && s.requests == []
          && forall c :: IsAwaiting(s, c) ==> !s.workers[0].Waiting? && s.workers[0].call == c)
  }

  lemma CrampedStepKeeps(cfg: Config, s: State, step: Step)
    requires Cramped(cfg) && CrampedInv(cfg, s) && Can(cfg, s, step)
    ensures CrampedInv(cfg, Do(cfg, s, step))
  {
    var s' := Do(cfg, s, step);
    assert forall c :: IsAwaiting(s', c) ==> IsAwaiting(s, c) || (IsNewCall(step) && c == step.c);
  }

  lemma {:induction false} CrampedRunKeeps(cfg: Config, s: State, steps: seq<Step>)
    requires Cramped(cfg) && CrampedInv(cfg, s) && CanRun(cfg, s, steps)
    ensures CrampedInv(cfg, Run(cfg, s, steps))
    decreases |steps|
  {
    if steps != [] {
      CrampedStepKeeps(cfg, s, steps[0]);
      CrampedRunKeeps(cfg, Do(cfg, s, steps[0]), steps[1..]);
    }
  }

  ghost predicate MixesUp(cfg: Config, steps: seq<Step>) {
    CanRun(cfg, Initial(cfg), steps) && Misdelivered(Run(cfg, Initial(cfg), steps))
  }

  /** Two calls, the second made while the first is at its worker. */
  lemma TwoCallsMixUp(cfg: Config) returns (steps: seq<Step>)
    requires !Cramped(cfg)
    ensures MixesUp(cfg, steps)
  {
    var s0 := Initial(cfg);
    var s1 := Do(cfg, s0, EnqueueDirect(0, 0));
    var second := if cfg.queueDepth >= 1 then Enqueue(1) else EnqueueDirect(1, 1);
    var s2 := Do(cfg, s1, second);
    assert s2.workers[0] == Busy(0);
    var rest := NextCanGoTo(cfg, s2, 1, 0);
    var r1 := Before(cfg, s1, second, rest);
    steps := Before(cfg, s0, EnqueueDirect(0, 0), r1);
  }

  /** Some run of a pipeline hands a caller another's result if and only if it has a worker and room for
      a second request, in its queue or at another worker. */
  lemma PipelineMixesUpIff(cfg: Config)
    ensures (exists steps :: MixesUp(cfg, steps)) <==> cfg.workerCount >= 1 && cfg.workerCount + cfg.queueDepth >= 2
  {
    if Cramped(cfg) {
      forall steps | CanRun(cfg, Initial(cfg), steps) ensures !MixesUp(cfg, steps) {
        CrampedRunKeeps(cfg, Initial(cfg), steps);
      }
    } else {
      var steps := TwoCallsMixUp(cfg);
      assert MixesUp(cfg, steps);
    }
  }

  /** Caller 1 has the result of call 0, whose caller is still waiting; call 1 is queued. */
  function HalfSwapped(cfg: Config): State {
    State([1], Initial(cfg).workers, [], map[0 := Awaiting, 1 := Got(0)], [0], [0])
  }

  lemma OtherHalf(cfg: Config) returns (steps: seq<Step>)
    requires cfg.workerCount >= 1
    ensures CanRun(cfg, HalfSwapped(cfg), steps)
    ensures Run(cfg, HalfSwapped(cfg), steps).callers == map[0 := Got(1), 1 := Got(0)]
  {
    var s0 := HalfSwapped(cfg);
    var s1 := Do(cfg, s0, Take(0));
    var s2 := Do(cfg, s1, Process(0));
    var r2 := Before(cfg, s2, PutDirect(0, 0), []);
    var r1 := Before(cfg, s1, Process(0), r2);
    steps := Before(cfg, s0, Take(0), r1);
  }

  /** Results are not addressed: with a worker and a queue, a run from the start gives each of two
      callers the other's result. */
  lemma ResultsAreNotAddressed(cfg: Config) returns (steps: seq<Step>)
    requires cfg.workerCount >= 1 && cfg.queueDepth >= 1
    ensures CanRun(cfg, Initial(cfg), steps)
    ensures Run(cfg, Initial(cfg), steps).callers == map[0 := Got(1), 1 := Got(0)]
  {
    var s0 := Initial(cfg);
    var s1 := Do(cfg, s0, EnqueueDirect(0, 0));
    var s2 := Do(cfg, s1, Enqueue(1));
    var s3 := Do(cfg, s2, Process(0));
    assert Do(cfg, s3, PutDirect(0, 1)) == HalfSwapped(cfg);
    var rest := OtherHalf(cfg);
    var r3 := Before(cfg, s3, PutDirect(0, 1), rest);
    var r2 := Before(cfg, s2, Process(0), r3);
    var r1 := Before(cfg, s1, Enqueue(1), r2);
    steps := Before(cfg, s0, EnqueueDirect(0, 0), r1);
  }

  // ---------------------------------------------------------------- the pipeline can stop for good

  /** Every buffer and worker holds something and nobody is waiting for a result. */
  ghost predicate Clogged(cfg: Config, s: State) {
    && |s.requests| == cfg.queueDepth && (s.workers != [] ==> |s.results| == cfg.queueDepth)
    && (forall w :: 0 <= w < |s.workers| ==> s.workers[w].Sending?)
    && (forall c :: !IsAwaiting(s, c))
  }

  /** All that can still happen is that callers are refused. */
  ghost predicate Stuck(cfg: Config, s: State) {
    forall step :: Can(cfg, s, step) ==> step.Enqueue? && Do(cfg, s, step).callers[step.c].Refused?
  }

  /** A caller that gives up leaves its result behind.  The pipeline refuses everybody exactly when
      results left behind fill both buffers and all workers, and then it does so for ever. */
  lemma StuckIffClogged(cfg: Config, s: State)
    requires Inv(cfg, s)
    ensures Stuck(cfg, s) <==> Clogged(cfg, s)
    ensures Clogged(cfg, s) ==> forall step :: Can(cfg, s, step) ==> Clogged(cfg, Do(cfg, s, step))
  {
    var unused := FreshCall(s.callers.Keys);
    assert Can(cfg, s, Enqueue(unused));
    var put := Put(0);
    if Stuck(cfg, s) {
      forall c ensures !IsAwaiting(s, c) {
        var abandon := Abandon(c);
        assert IsAwaiting(s, c) ==> Can(cfg, s, abandon);
      }
      forall w: nat | w < |s.workers| ensures s.workers[w].Sending? {
        var process, take, direct := Process(w), Take(w), EnqueueDirect(unused, w);
        assert s.workers[w].Busy? ==> Can(cfg, s, process);
        assert s.workers[w].Waiting? ==> Can(cfg, s, take) || Can(cfg, s, direct);
      }
      assert s.workers != [] && |s.results| < cfg.queueDepth ==> Can(cfg, s, put);
    }
    forall step | Clogged(cfg, s) && Can(cfg, s, step) ensures Clogged(cfg, Do(cfg, s, step)) {
      assert step.Enqueue?;
      assert forall c :: IsAwaiting(Do(cfg, s, step), c) ==> IsAwaiting(s, c);
    }
  }

  lemma {:induction false} Joined(cfg: Config, s: State, a: seq<Step>, b: seq<Step>)
    requires CanRun(cfg, s, a) && CanRun(cfg, Run(cfg, s, a), b)
    ensures CanRun(cfg, s, a + b) && Run(cfg, s, a + b) == Run(cfg, Run(cfg, s, a), b)
    decreases |a|
  {
    if a == [] {
      assert a + b == b;
    } else {
      Joined(cfg, Do(cfg, s, a[0]), a[1..], b);
      assert (a + b)[1..] == a[1..] + b;
    }
  }

  ghost predicate NobodyWaits(s: State) { forall c :: !IsAwaiting(s, c) }

  /** The workers from `n` on are waiting and those before it are stuck with a result. */
  ghost predicate StuckUpTo(s: State, n: nat) {
    && n <= |s.workers|
    && (forall w :: 0 <= w < n ==> s.workers[w].Sending?)
    && (forall w :: n <= w < |s.workers| ==> s.workers[w].Waiting?)
  }

  /** A caller comes straight to worker `w`, which processes its request, and gives up. */
  lemma GivesUpAtWorker(cfg: Config, s: State, w: nat) returns (steps: seq<Step>, c: CallId)
    requires s.requests == [] && NobodyWaits(s) && w < |s.workers| && s.workers[w].Waiting?
    ensures CanRun(cfg, s, steps)
    ensures
      var s' := Run(cfg, s, steps);
      NobodyWaits(s') && s'.requests == [] && s'.results == s.results && s'.workers == s.workers[w := Sending(c)]
  {
    c := FreshCall(s.callers.Keys);
    var s1 := Do(cfg, s, EnqueueDirect(c, w));
    var s2 := Do(cfg, s1, Process(w));
    var s3 := Do(cfg, s2, Abandon(c));
    forall d ensures !IsAwaiting(s3, d) { assert !IsAwaiting(s, d); }
    var r2 := Before(cfg, s2, Abandon(c), []);
    var r1 := Before(cfg, s1, Process(w), r2);
    steps := Before(cfg, s, EnqueueDirect(c, w), r1);
  }

  /** A result that nobody waits for goes to the buffer. */
  lemma LeavesResult(cfg: Config, s: State) returns (steps: seq<Step>)
    requires s.requests == [] && NobodyWaits(s) && StuckUpTo(s, 0) && s.workers != [] && |s.results| < cfg.queueDepth
    ensures CanRun(cfg, s, steps)
    ensures
      var s' := Run(cfg, s, steps);
      && NobodyWaits(s') && s'.requests == [] && StuckUpTo(s', 0)
      && |s'.workers| == |s.workers| && |s'.results| == |s.results| + 1
  {
    var first, c := GivesUpAtWorker(cfg, s, 0);
    var s1 := Run(cfg, s, first);
    var s2 := Do(cfg, s1, Put(0));
    forall d ensures !IsAwaiting(s2, d) { assert !IsAwaiting(s1, d); }
    var last := Before(cfg, s1, Put(0), []);
    Joined(cfg, s, first, last);
    steps := first + last;
  }

  lemma {:induction false} ResultsFill(cfg: Config, s: State) returns (steps: seq<Step>)
    requires s.requests == [] && NobodyWaits(s) && StuckUpTo(s, 0) && s.workers != [] && |s.results| <= cfg.queueDepth
    ensures CanRun(cfg, s, steps)
    ensures
      var s' := Run(cfg, s, steps);
      && NobodyWaits(s') && s'.requests == [] && StuckUpTo(s', 0)
      && |s'.workers| == |s.workers| && |s'.results| == cfg.queueDepth
    decreases cfg.queueDepth - |s.results|
  {
    steps := [];
    if |s.results| < cfg.queueDepth {
      var first := LeavesResult(cfg, s);
      var rest := ResultsFill(cfg, Run(cfg, s, first));
      Joined(cfg, s, first, rest);
      steps := first + rest;
    }
  }

  lemma {:induction false} WorkersFill(cfg: Config, s: State, n: nat) returns (steps: seq<Step>)
    requires s.requests == [] && NobodyWaits(s) && StuckUpTo(s, n)
    ensures CanRun(cfg, s, steps)
    ensures
      var s' := Run(cfg, s, steps);
      && NobodyWaits(s') && s'.requests == [] && StuckUpTo(s', |s'.workers|)
      && |s'.workers| == |s.workers| && s'.results == s.results
    decreases |s.workers| - n
  {
    steps := [];
    if n < |s.workers| {
      var first, c := GivesUpAtWorker(cfg, s, n);
      var rest := WorkersFill(cfg, Run(cfg, s, first), n + 1);
      Joined(cfg, s, first, rest);
      steps := first + rest;
    }
  }

  lemma {:induction false} RequestsFill(cfg: Config, s: State) returns (steps: seq<Step>)
    requires NobodyWaits(s) && |s.requests| <= cfg.queueDepth
    ensures CanRun(cfg, s, steps)
    ensures
      var s' := Run(cfg, s, steps);
      NobodyWaits(s') && |s'.requests| == cfg.queueDepth && s'.workers == s.workers && s'.results == s.results
    decreases cfg.queueDepth - |s.requests|
  {
    steps := [];
    if |s.requests| < cfg.queueDepth {
      var c := FreshCall(s.callers.Keys);
      var s1 := Do(cfg, s, Enqueue(c));
      var s2 := Do(cfg, s1, Abandon(c));
      forall d ensures !IsAwaiting(s2, d) { assert !IsAwaiting(s, d); }
      var rest := RequestsFill(cfg, s2);
      var r1 := Before(cfg, s1, Abandon(c), rest);
      steps := Before(cfg, s, Enqueue(c), r1);
    }
  }

  /** It does happen, with any number of workers and any depth: callers that give up fill the results
      buffer, then the workers, then the queue. */
  lemma AbandonedResultsClog(cfg: Config) returns (steps: seq<Step>)
    ensures CanRun(cfg, Initial(cfg), steps) && Clogged(cfg, Run(cfg, Initial(cfg), steps))
  {
    var s0 := Initial(cfg);
    var a: seq<Step> := [];
    if cfg.workerCount > 0 { a := ResultsFill(cfg, s0); }
    var s1 := Run(cfg, s0, a);
    var b := WorkersFill(cfg, s1, 0);
    var s2 := Run(cfg, s1, b);
    var c := RequestsFill(cfg, s2);
    Joined(cfg, s1, b, c);
    Joined(cfg, s0, a, b + c);
    steps := a + (b + c);
  }

  lemma {:induction false} FreshCall(calls: set<CallId>) returns (unused: CallId)
    ensures forall c :: c in calls ==> c < unused
    decreases |calls|
  {
    unused := 0;
    if calls != {} {
      var c :| c in calls;
      var rest := FreshCall(calls - {c});
      unused := if rest > c then rest else c + 1;
      assert forall d :: d in calls ==> d == c || d in calls - {c};
    }
  }
}
