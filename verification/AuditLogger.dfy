/** The asynchronous audit logger (internal/infra/audit/async_audit_logger.go): producers that never
    block, a bounded channel, and workers that batch.  Every interleaving of their channel
    operations and ticks is a run.

    Sending after Stop panics in Go; those steps are not part of a run. */
module AuditLogger {
  datatype AuditEvent = AuditEvent(
    id: string, clientIdentity: string, operation: string, keyId: string, authDecisionId: string,
    success: bool, error: string)

  datatype Config = Config(channelBufferSize: nat, workerCount: nat, batchSize: int)

  /** A worker that has not returned is in its select. */
  datatype Worker = Worker(batch: seq<AuditEvent>, exited: bool)

  /** `accepted` lists the events whose send succeeded, `written` the batches handed to the
      repository, both in order. */
  datatype State = State(
    closed: bool, channel: seq<AuditEvent>, workers: seq<Worker>,
    accepted: seq<AuditEvent>, dropped: seq<AuditEvent>, written: seq<seq<AuditEvent>>)

  datatype Step =
    | Send(e: AuditEvent)
    | Handoff(e: AuditEvent, w: nat)
    | Receive(w: nat)
    | Tick(w: nat)
    | Exit(w: nat)
    | Close

  function Initial(cfg: Config): State {
    State(false, [], seq(cfg.workerCount, _ => Worker([], false)), [], [], [])
  }

  predicate Active(s: State, w: nat) { w < |s.workers| && !s.workers[w].exited }

  /** A send to an empty channel may go straight to a waiting worker; with a buffer of size zero
      that is the only way it succeeds. */
  predicate Can(cfg: Config, s: State, step: Step) {
    match step
    case Send(_) => !s.closed
    case Handoff(_, w) => !s.closed && s.channel == [] && Active(s, w)
    case Receive(w) => Active(s, w) && s.channel != []
    case Tick(w) => Active(s, w)
    case Exit(w) => Active(s, w) && s.closed && s.channel == []
    case Close => !s.closed
  }

  /** Hands the worker's batch over, unless it is empty. */
  function Flush(s: State, w: nat, batch: seq<AuditEvent>, exited: bool): State
    requires w < |s.workers|
  {
    s.(workers := s.workers[w := Worker([], exited)], written := if batch == [] then s.written else s.written + [batch])
  }

  function Deliver(cfg: Config, s: State, w: nat, e: AuditEvent): State
    requires w < |s.workers|
  {
    var batch := s.workers[w].batch + [e];
    if |batch| >= cfg.batchSize then Flush(s, w, batch, false)
    else s.(workers := s.workers[w := Worker(batch, false)])
  }

  function Do(cfg: Config, s: State, step: Step): State
    requires Can(cfg, s, step)
  {
    match step
    case Send(e) =>
      if |s.channel| < cfg.channelBufferSize then s.(channel := s.channel + [e], accepted := s.accepted + [e])
      else s.(dropped := s.dropped + [e])
    case Handoff(e, w) => Deliver(cfg, s.(accepted := s.accepted + [e]), w, e)
    case Receive(w) => Deliver(cfg, s.(channel := s.channel[1..]), w, s.channel[0])
    case Tick(w) => Flush(s, w, s.workers[w].batch, false)
    case Exit(w) => Flush(s, w, s.workers[w].batch, true)
    case Close => s.(closed := true)
  }

  // ---------------------------------------------------------------- invariant

  /** How often `e` occurs in a sequence, in the workers' batches, in the batches handed over. */
  function Count(events: seq<AuditEvent>, e: AuditEvent): nat { multiset(events)[e] }

  function Held(workers: seq<Worker>, e: AuditEvent): nat {
    if workers == [] then 0 else Count(workers[0].batch, e) + Held(workers[1..], e)
  }

  function Handed(written: seq<seq<AuditEvent>>, e: AuditEvent): nat {
    if written == [] then 0 else Handed(written[..|written| - 1], e) + Count(written[|written| - 1], e)
  }

  /** Even a batch size of zero or less writes events one by one. */
  function MaxBatch(cfg: Config): int { if cfg.batchSize < 1 then 1 else cfg.batchSize }

  ghost predicate Conserved(s: State, e: AuditEvent) {
    Count(s.accepted, e) == Count(s.channel, e) + Held(s.workers, e) + Handed(s.written, e)
  }

  ghost predicate WorkerOk(cfg: Config, s: State, w: Worker) {
    |w.batch| < MaxBatch(cfg) && (w.exited ==> w.batch == [] && s.closed && s.channel == [])
  }

  ghost predicate Inv(cfg: Config, s: State) {
    && (forall e :: Conserved(s, e))
    && |s.channel| <= cfg.channelBufferSize
    && |s.workers| == cfg.workerCount
    && (forall w :: 0 <= w < |s.workers| ==> WorkerOk(cfg, s, s.workers[w]))
    && (forall i :: 0 <= i < |s.written| ==> 1 <= |s.written[i]| <= MaxBatch(cfg))
  }

  lemma {:induction false} HeldUpdate(workers: seq<Worker>, w: nat, x: Worker, e: AuditEvent)
    requires w < |workers|
    ensures Held(workers[w := x], e) + Count(workers[w].batch, e) == Held(workers, e) + Count(x.batch, e)
    decreases |workers|
  {
    if w > 0 {
      HeldUpdate(workers[1..], w - 1, x, e);
      assert workers[w := x][1..] == workers[1..][w - 1 := x];
    } else {
      assert workers[0 := x][1..] == workers[1..];
    }
  }

  lemma {:induction false} HeldNothing(workers: seq<Worker>, e: AuditEvent)
    requires forall w :: 0 <= w < |workers| ==> workers[w].batch == []
    ensures Held(workers, e) == 0
    decreases |workers|
  {
    if workers != [] { HeldNothing(workers[1..], e); }
  }

  /** Flushing moves the batch from the worker to the repository. */
  lemma FlushMoves(s: State, w: nat, batch: seq<AuditEvent>, exited: bool, e: AuditEvent)
    requires w < |s.workers|
    ensures
      var s' := Flush(s, w, batch, exited);
      Held(s'.workers, e) + Handed(s'.written, e) + Count(s.workers[w].batch, e) ==
        Held(s.workers, e) + Handed(s.written, e) + Count(batch, e)
  {
    HeldUpdate(s.workers, w, Worker([], exited), e);
    assert (s.written + [batch])[..|s.written|] == s.written;
  }

  /** Delivering adds the event to what the workers hold or have handed over. */
  lemma DeliverAdds(cfg: Config, s: State, w: nat, x: AuditEvent, e: AuditEvent)
    requires w < |s.workers|
    ensures
      var s' := Deliver(cfg, s, w, x);
      Held(s'.workers, e) + Handed(s'.written, e) == Held(s.workers, e) + Handed(s.written, e) + Count([x], e)
  {
    var batch := s.workers[w].batch + [x];
    assert Count(batch, e) == Count(s.workers[w].batch, e) + Count([x], e);
    if |batch| >= cfg.batchSize {
      FlushMoves(s, w, batch, false, e);
    } else {
      HeldUpdate(s.workers, w, Worker(batch, false), e);
    }
  }

  lemma CountAppend(events: seq<AuditEvent>, x: AuditEvent, e: AuditEvent)
    ensures Count(events + [x], e) == Count(events, e) + Count([x], e)
  {
  }

  lemma HandoffConserves(cfg: Config, s: State, x: AuditEvent, w: nat, e: AuditEvent)
    requires Conserved(s, e) && Can(cfg, s, Handoff(x, w))
    ensures Conserved(Do(cfg, s, Handoff(x, w)), e)
  {
    CountAppend(s.accepted, x, e);
    DeliverAdds(cfg, s.(accepted := s.accepted + [x]), w, x, e);
  }

  lemma ReceiveConserves(cfg: Config, s: State, w: nat, e: AuditEvent)
    requires Conserved(s, e) && Can(cfg, s, Receive(w))
    ensures Conserved(Do(cfg, s, Receive(w)), e)
  {
    assert s.channel == [s.channel[0]] + s.channel[1..];
    assert Count(s.channel, e) == Count([s.channel[0]], e) + Count(s.channel[1..], e);
    DeliverAdds(cfg, s.(channel := s.channel[1..]), w, s.channel[0], e);
  }

  lemma StepConserves(cfg: Config, s: State, step: Step, e: AuditEvent)
    requires Conserved(s, e) && Can(cfg, s, step)
    ensures Conserved(Do(cfg, s, step), e)
  {
    match step
    case Send(x) => CountAppend(s.channel, x, e); CountAppend(s.accepted, x, e);
    case Handoff(x, w) => HandoffConserves(cfg, s, x, w, e);
    case Receive(w) => ReceiveConserves(cfg, s, w, e);
    case Tick(w) => FlushMoves(s, w, s.workers[w].batch, false, e);
    case Exit(w) => FlushMoves(s, w, s.workers[w].batch, true, e);
    case Close =>
  }

  lemma StepKeepsSizes(cfg: Config, s: State, step: Step)
    requires Inv(cfg, s) && Can(cfg, s, step)
    ensures
      var s' := Do(cfg, s, step);
      && |s'.channel| <= cfg.channelBufferSize
      && |s'.workers| == cfg.workerCount
      && (forall w :: 0 <= w < |s'.workers| ==> WorkerOk(cfg, s', s'.workers[w]))
      && (forall i :: 0 <= i < |s'.written| ==> 1 <= |s'.written[i]| <= MaxBatch(cfg))
  {
    var s' := Do(cfg, s, step);
    forall w | 0 <= w < |s'.workers| ensures WorkerOk(cfg, s', s'.workers[w]) { assert WorkerOk(cfg, s, s.workers[w]); }
  }

  lemma StepKeepsInv(cfg: Config, s: State, step: Step)
    requires Inv(cfg, s) && Can(cfg, s, step)
    ensures Inv(cfg, Do(cfg, s, step))
  {
    StepKeepsSizes(cfg, s, step);
    forall e ensures Conserved(Do(cfg, s, step), e) { StepConserves(cfg, s, step, e); }
  }

  // ---------------------------------------------------------------- whole runs

  ghost predicate CanRun(cfg: Config, s: State, steps: seq<Step>)
    decreases |steps|
  {
    steps == [] || (Can(cfg, s, steps[0]) && CanRun(cfg, Do(cfg, s, steps[0]), steps[1..]))
  }

  ghost function Run(cfg: Config, s: State, steps: seq<Step>): State
    requires CanRun(cfg, s, steps)
    decreases |steps|
  {
    if steps == [] then s else Run(cfg, Do(cfg, s, steps[0]), steps[1..])
  }

  lemma {:induction false} RunKeepsInv(cfg: Config, s: State, steps: seq<Step>)
    requires Inv(cfg, s) && CanRun(cfg, s, steps)
    ensures Inv(cfg, Run(cfg, s, steps))
    decreases |steps|
  {
    if steps != [] {
      StepKeepsInv(cfg, s, steps[0]);
      RunKeepsInv(cfg, Do(cfg, s, steps[0]), steps[1..]);
    }
  }

  lemma InitialInv(cfg: Config)
    ensures Inv(cfg, Initial(cfg))
  {
    forall e ensures Conserved(Initial(cfg), e) { HeldNothing(Initial(cfg).workers, e); }
  }

  /** In every interleaving each event was accepted as often as it is in the channel, in the
      workers' batches and in what was handed to the repository; and batches are neither empty nor
      oversized. */
  lemma EventsAreConserved(cfg: Config, steps: seq<Step>)
    requires CanRun(cfg, Initial(cfg), steps)
    ensures
      var s := Run(cfg, Initial(cfg), steps);
      && (forall e :: Count(s.accepted, e) == Count(s.channel, e) + Held(s.workers, e) + Handed(s.written, e))
      && (forall i :: 0 <= i < |s.written| ==> 1 <= |s.written[i]| <= MaxBatch(cfg))
      && |s.channel| <= cfg.channelBufferSize
  {
    var s := Run(cfg, Initial(cfg), steps);
    InitialInv(cfg);
    RunKeepsInv(cfg, Initial(cfg), steps);
    forall e ensures Count(s.accepted, e) == Count(s.channel, e) + Held(s.workers, e) + Handed(s.written, e) {
      assert Conserved(s, e);
    }
  }

  /** Stop has returned: the channel is closed and every worker has returned. */
  predicate Stopped(s: State) {
    s.closed && forall w :: 0 <= w < |s.workers| ==> s.workers[w].exited
  }

  /** After Stop every accepted event has been handed over exactly as often as it was accepted,
      precisely when there was a worker or nothing was queued. */
  lemma StoppedHandsOverAllIff(cfg: Config, steps: seq<Step>)
    requires CanRun(cfg, Initial(cfg), steps) && Stopped(Run(cfg, Initial(cfg), steps))
    ensures
      var s := Run(cfg, Initial(cfg), steps);
      (forall e :: Count(s.accepted, e) == Handed(s.written, e)) <==> cfg.workerCount >= 1 || s.channel == []
  {
    var s := Run(cfg, Initial(cfg), steps);
    InitialInv(cfg);
    RunKeepsInv(cfg, Initial(cfg), steps);
    forall e ensures Count(s.accepted, e) == Count(s.channel, e) + Handed(s.written, e) {
      assert Conserved(s, e);
      HeldNothing(s.workers, e);
    }
    if cfg.workerCount >= 1 {
      assert WorkerOk(cfg, s, s.workers[0]);
    } else if s.channel != [] {
      assert s.channel[0] in multiset(s.channel);
      assert Count(s.accepted, s.channel[0]) != Handed(s.written, s.channel[0]);
    }
  }

  function Running(workers: seq<Worker>): nat {
    if workers == [] then 0 else (if workers[0].exited then 0 else 1) + Running(workers[1..])
  }

  lemma {:induction false} RunningUpdate(workers: seq<Worker>, w: nat, x: Worker)
    requires w < |workers| && !workers[w].exited
    ensures Running(workers[w := x]) == Running(workers) - (if x.exited then 1 else 0)
    decreases |workers|
  {
    if w > 0 {
      RunningUpdate(workers[1..], w - 1, x);
      assert workers[w := x][1..] == workers[1..][w - 1 := x];
    } else {
      assert workers[0 := x][1..] == workers[1..];
    }
  }

  function Remaining(s: State): nat { |s.channel| + Running(s.workers) }

  lemma DeliverKeepsRunning(cfg: Config, s: State, w: nat, e: AuditEvent)
    requires Active(s, w)
    ensures Running(Deliver(cfg, s, w, e).workers) == Running(s.workers)
  {
    RunningUpdate(s.workers, w, Worker([], false));
    RunningUpdate(s.workers, w, Worker(s.workers[w].batch + [e], false));
  }

  /** Once the channel is closed every step but a tick leaves exactly one thing less to do, and any
      worker still running has such a step. */
  lemma ClosedStepProgresses(cfg: Config, s: State, step: Step)
    requires s.closed && Can(cfg, s, step)
    ensures Do(cfg, s, step).closed
    ensures Remaining(Do(cfg, s, step)) + (if step.Tick? then 0 else 1) == Remaining(s)
    ensures forall w: nat :: Active(s, w) ==> Can(cfg, s, if s.channel == [] then Exit(w) else Receive(w))
  {
    match step
    case Receive(w) => DeliverKeepsRunning(cfg, s.(channel := s.channel[1..]), w, s.channel[0]);
    case Tick(w) => RunningUpdate(s.workers, w, Worker([], false));
    case Exit(w) => RunningUpdate(s.workers, w, Worker([], true));
  }

  function NonTicks(steps: seq<Step>): nat {
    if steps == [] then 0 else (if steps[0].Tick? then 0 else 1) + NonTicks(steps[1..])
  }

  /** Stop returns: however the workers are scheduled after the close, they take at most as many steps,
      ticks aside, as there are queued events and running workers; when that many have been taken the
      channel is empty and every worker has returned. */
  lemma {:induction false} StopTerminates(cfg: Config, s: State, steps: seq<Step>)
    requires s.closed && CanRun(cfg, s, steps)
    ensures NonTicks(steps) <= Remaining(s)
    ensures NonTicks(steps) == Remaining(s) ==> Run(cfg, s, steps).channel == [] && Stopped(Run(cfg, s, steps))
    decreases |steps|
  {
    if steps != [] {
      ClosedStepProgresses(cfg, s, steps[0]);
      StopTerminates(cfg, Do(cfg, s, steps[0]), steps[1..]);
    } else if Running(s.workers) == 0 {
      NoneRunning(s.workers);
    }
  }

  lemma {:induction false} NoneRunning(workers: seq<Worker>)
    requires Running(workers) == 0
    ensures forall w :: 0 <= w < |workers| ==> workers[w].exited
    decreases |workers|
  {
    if workers != [] { NoneRunning(workers[1..]); }
  }

  // ---------------------------------------------------------------- order

  function Concat(written: seq<seq<AuditEvent>>): seq<AuditEvent> {
    if written == [] then [] else Concat(written[..|written| - 1]) + written[|written| - 1]
  }

  /** What the only worker has taken from the channel, in order. */
  ghost function Taken(s: State): seq<AuditEvent>
    requires |s.workers| == 1
  {
    Concat(s.written) + s.workers[0].batch
  }

  ghost predicate InOrder(s: State) {
    |s.workers| == 1 && s.accepted == Taken(s) + s.channel
  }

  lemma FlushKeepsTaken(s: State, batch: seq<AuditEvent>, exited: bool)
    requires |s.workers| == 1
    ensures
      var s' := Flush(s, 0, batch, exited);
      |s'.workers| == 1 && Taken(s') == Concat(s.written) + batch
  {
    assert (s.written + [batch])[..|s.written|] == s.written;
  }

  lemma DeliverExtendsTaken(cfg: Config, s: State, e: AuditEvent)
    requires |s.workers| == 1
    ensures
      var s' := Deliver(cfg, s, 0, e);
      |s'.workers| == 1 && Taken(s') == Taken(s) + [e]
  {
    var batch := s.workers[0].batch + [e];
    FlushKeepsTaken(s, batch, false);
    assert Concat(s.written) + batch == Taken(s) + [e];
  }

  lemma ReceiveKeepsOrder(cfg: Config, s: State)
    requires InOrder(s) && Can(cfg, s, Receive(0))
    ensures InOrder(Do(cfg, s, Receive(0)))
  {
    var s0 := s.(channel := s.channel[1..]);
    DeliverExtendsTaken(cfg, s0, s.channel[0]);
    assert Taken(s) + s.channel == Taken(s0) + [s.channel[0]] + s.channel[1..];
  }

  lemma HandoffKeepsOrder(cfg: Config, s: State, e: AuditEvent)
    requires InOrder(s) && Can(cfg, s, Handoff(e, 0))
    ensures InOrder(Do(cfg, s, Handoff(e, 0)))
  {
    var s0 := s.(accepted := s.accepted + [e]);
    DeliverExtendsTaken(cfg, s0, e);
    assert s.accepted + [e] == Taken(s0) + [e] + [];
  }

  lemma SendKeepsOrder(cfg: Config, s: State, e: AuditEvent)
    requires InOrder(s) && Can(cfg, s, Send(e))
    ensures InOrder(Do(cfg, s, Send(e)))
  {
    assert Taken(s) + (s.channel + [e]) == Taken(s) + s.channel + [e];
  }

  lemma FlushKeepsOrder(s: State, exited: bool)
    requires InOrder(s)
    ensures InOrder(Flush(s, 0, s.workers[0].batch, exited))
  {
    FlushKeepsTaken(s, s.workers[0].batch, exited);
  }

  lemma StepKeepsOrder(cfg: Config, s: State, step: Step)
    requires InOrder(s) && Can(cfg, s, step)
    ensures InOrder(Do(cfg, s, step))
  {
    match step
    case Send(e) => SendKeepsOrder(cfg, s, e);
    case Handoff(e, w) => assert w == 0; HandoffKeepsOrder(cfg, s, e);
    case Receive(w) => assert w == 0; ReceiveKeepsOrder(cfg, s);
    case Tick(w) => assert w == 0; FlushKeepsOrder(s, false);
    case Exit(w) => assert w == 0; FlushKeepsOrder(s, true);
    case Close =>
  }

  /** A single worker keeps the order in which events were accepted. */
  lemma {:induction false} OneWorkerKeepsOrder(cfg: Config, s: State, steps: seq<Step>)
    requires InOrder(s) && CanRun(cfg, s, steps)
    ensures InOrder(Run(cfg, s, steps))
    decreases |steps|
  {
    if steps != [] {
      StepKeepsOrder(cfg, s, steps[0]);
      OneWorkerKeepsOrder(cfg, Do(cfg, s, steps[0]), steps[1..]);
    }
  }

  // ---------------------------------------------------------------- acceptance and batching

  /** A send is accepted if and only if the channel has room; the event is then last in the channel.  Otherwise
      it is dropped, and nothing waits. */
  lemma SendIsAcceptedIff(cfg: Config, s: State, e: AuditEvent)
    requires !s.closed
    ensures
      && Can(cfg, s, Send(e))
      && var s' := Do(cfg, s, Send(e));
      if |s.channel| < cfg.channelBufferSize
      then s' == s.(channel := s.channel + [e], accepted := s.accepted + [e])
      else s' == s.(dropped := s.dropped + [e])
  {
  }

  /** The logger starts open and empty, closing is possible once and changes nothing else, and from then on nothing
      is sent and workers that have drained the channel can return. */
  lemma LifeCycle(cfg: Config, s: State, e: AuditEvent, w: nat)
    ensures
      var s0 := Initial(cfg);
      && !s0.closed && s0.channel == [] && s0.accepted == [] && s0.dropped == [] && s0.written == []
      && |s0.workers| == cfg.workerCount && forall i :: 0 <= i < cfg.workerCount ==> s0.workers[i] == Worker([], false)
    ensures Can(cfg, s, Close) <==> !s.closed
    ensures !s.closed ==> Do(cfg, s, Close) == s.(closed := true)
    ensures s.closed ==> !Can(cfg, s, Send(e)) && !Can(cfg, s, Handoff(e, w))
    ensures Can(cfg, s, Exit(w)) <==> s.closed && s.channel == [] && Active(s, w)
  {
  }

  /** A worker that takes an event hands its batch over if and only if that makes it full, and keeps it
      otherwise; a tick or an exit hands over whatever it holds. */
  lemma WorkerHandsOverIff(cfg: Config, s: State, step: Step)
    requires Can(cfg, s, step) && (step.Receive? || step.Handoff? || step.Tick? || step.Exit?)
    ensures
      var s' := Do(cfg, s, step);
      var held := s.workers[step.w].batch
        + (if step.Receive? then [s.channel[0]] else if step.Handoff? then [step.e] else []);
      var full := step.Tick? || step.Exit? || |held| >= cfg.batchSize;
      && s'.written == (if full && held != [] then s.written + [held] else s.written)
      && s'.workers == s.workers[step.w := Worker(if full then [] else held, step.Exit?)]
      && s'.channel == (if step.Receive? then s.channel[1..] else s.channel)
  {
    assert s.workers[step.w].batch + [] == s.workers[step.w].batch;
  }

  predicate IsFlush(step: Step) { step.Tick? || step.Exit? }

  ghost predicate AllFull(cfg: Config, written: seq<seq<AuditEvent>>) {
    forall i :: 0 <= i < |written| ==> |written[i]| == MaxBatch(cfg)
  }

  /** Without ticks and exits only full batches are written. */
  lemma {:induction false} OnlyFullBatches(cfg: Config, s: State, steps: seq<Step>)
    requires Inv(cfg, s) && CanRun(cfg, s, steps) && AllFull(cfg, s.written)
    requires forall step :: step in steps ==> !IsFlush(step)
    ensures AllFull(cfg, Run(cfg, s, steps).written)
    decreases |steps|
  {
    if steps != [] {
      var step := steps[0];
      assert step in steps;
      StepKeepsInv(cfg, s, step);
      if step.Receive? || step.Handoff? {
        assert WorkerOk(cfg, s, s.workers[step.w]);
        WorkerHandsOverIff(cfg, s, step);
      }
      OnlyFullBatches(cfg, Do(cfg, s, step), steps[1..]);
    }
  }
}
