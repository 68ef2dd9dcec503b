// The lifecycle protocol of the route-state cleanup scheduler
// (core/route_state_cleanup_scheduler.py) as a state machine: what one atomic
// step does, and what every run of steps keeps. Code between two awaits is one
// step of the event loop; worker threads step on their own.
module SchedulerProtocol {
  import opened CleanupWorker
  import opened Options

  /** How a loop task ended. */
  datatype Outcome = Returned | Cancelled | Raised

  /** Where the loop coroutine is suspended. */
  datatype Pc =
    | Unstarted       // created, first step still scheduled
    | AwaitBatch      // line 103
    | DrainBatch      // line 107, after a first cancellation
    | AwaitWake       // line 118
    | FinalDrain      // line 128, after a second cancellation
    | Ended(outcome: Outcome)

  /** One generation of the scheduler: its loop task, its two events, its local
      `batch`, whether a cancellation is waiting for it and whether its
      done-callback is still to come. The last four fields are history. */
  datatype LoopTask = LoopTask(
    pc: Pc, wake: bool, stop: bool, batch: Option<nat>, cancelRequested: bool, callbackPending: bool,
    batchesCreated: nat, timeouts: nat, runs: nat, rowsDeleted: nat)

  /** A batch task with the thread it wraps. `cancels` counts the CancelledErrors
      its loop has received while awaiting it undone. */
  datatype Batch = Batch(owner: nat, worker: Worker, done: bool, cancels: nat)

  datatype StopExit = ExitNormal | ExitTaskError | ExitCancelled

  datatype StopPc = AwaitTask | Left(how: StopExit)

  /** One call of stop_route_state_cleanup_scheduler, with the task it captured. */
  datatype StopCall = StopCall(captured: Option<nat>, pc: StopPc, cancelRequested: bool, callerCancelled: bool)

  datatype Phase = Stopped | Running | Stopping

  /** Module globals first. An event object is named by the generation it was
      created for. `arrived` and `deleted` are history. */
  datatype State = State(
    task: Option<nat>, wakeEvent: Option<nat>, stopEvent: Option<nat>, activeBatch: Option<nat>, phase: Phase,
    loops: seq<LoopTask>, batches: seq<Batch>, stops: seq<StopCall>,
    expired: nat, arrived: nat, deleted: nat)

  /** Why a suspended loop task resumes: a CancelledError, the completion of what
      it awaits, or the interval timer. */
  datatype Resume = ByCancel | ByCompletion | ByTimer

  datatype Event =
    | Start
    | StopEnter
    | StopResume(call: nat)
    | StopCancelRequest(call: nat)
    | LoopResume(g: nat, how: Resume)
    | LoopCancelRequest(g: nat)
    | DoneCallback(g: nat)
    | ThreadCheck(b: nat)
    | ThreadRun(b: nat, result: RunResult)
    | BatchDone(b: nat)
    | RowsExpire(rows: nat)

  const NEW_LOOP := LoopTask(Unstarted, false, false, None, false, false, 0, 0, 0, 0)
  const INIT := State(None, None, None, None, Stopped, [], [], [], 0, 0, 0)

  // ---- What each step does ---------------------------------------------------

  ghost predicate Live(s: State, g: nat) { g < |s.loops| && !s.loops[g].pc.Ended? }

  ghost predicate InFlight(s: State, b: nat) { b < |s.batches| && !s.batches[b].done }

  /** The loop is suspended on its own batch. */
  predicate Draining(pc: Pc) { pc.AwaitBatch? || pc.DrainBatch? || pc.FinalDrain? }

  ghost predicate LoopBatchValid(s: State, g: nat)
    requires g < |s.loops|
  {
    s.loops[g].batch.Some? && s.loops[g].batch.value < |s.batches|
  }

  /** Python 3.11's wait_for hands over a completed wake event even when a
      cancellation is waiting; every other await prefers the cancellation. */
  ghost predicate LoopCanResume(s: State, g: nat, how: Resume) {
    && Live(s, g)
    && var l := s.loops[g];
    && (Draining(l.pc) ==> LoopBatchValid(s, g))
    && match how
       case ByCancel => l.cancelRequested
       case ByTimer => l.pc.AwaitWake? && !l.cancelRequested
       case ByCompletion =>
         if l.pc.AwaitWake? then l.wake
         else !l.cancelRequested && (Draining(l.pc) ==> s.batches[l.batch.value].done)
  }

  ghost predicate Enabled(s: State, e: Event) {
    match e
    case Start => s.task.Some? ==> s.task.value < |s.loops|
    case StopEnter => s.task.Some? ==> s.task.value < |s.loops|
    case StopResume(c) =>
      && c < |s.stops| && s.stops[c].pc.AwaitTask?
      && s.stops[c].captured.Some? && s.stops[c].captured.value < |s.loops|
      && (s.stops[c].cancelRequested || !Live(s, s.stops[c].captured.value))
    case StopCancelRequest(c) => c < |s.stops| && s.stops[c].pc.AwaitTask?
    case LoopResume(g, how) => LoopCanResume(s, g, how)
    case LoopCancelRequest(g) => Live(s, g)
    case DoneCallback(g) => g < |s.loops| && s.loops[g].callbackPending
    case ThreadCheck(b) => InFlight(s, b) && s.batches[b].worker.AtCheck? && s.batches[b].owner < |s.loops|
    case ThreadRun(b, r) =>
      && InFlight(s, b) && s.batches[b].worker.InRun? && s.batches[b].owner < |s.loops|
      && Gone(r) <= BATCH_LIMIT && Gone(r) <= s.expired
    case BatchDone(b) => InFlight(s, b) && s.batches[b].worker.Finished?
    case RowsExpire(_) => true
  }

  function WithLoop(s: State, g: nat, l: LoopTask): State
    requires g < |s.loops|
  {
    s.(loops := s.loops[g := l])
  }

  function EndLoop(s: State, g: nat, how: Outcome): State
    requires g < |s.loops|
  {
    WithLoop(s, g, s.loops[g].(pc := Ended(how), cancelRequested := false, callbackPending := true))
  }

  /** Ownership is given up: the five globals return to their initial values. */
  function Released(s: State): State {
    s.(task := None, wakeEvent := None, stopEvent := None, activeBatch := None, phase := Stopped)
  }

  function StartStep(s: State): State
    requires s.task.Some? ==> s.task.value < |s.loops|
  {
    if s.task.Some? && !s.loops[s.task.value].pc.Ended? then s else
    var g := |s.loops|;
    s.(task := Some(g), wakeEvent := Some(g), stopEvent := Some(g),
       activeBatch := None, phase := Running, loops := s.loops + [NEW_LOOP])
  }

  /** How a stop call leaves, given how its task ended and whether its own caller
      was cancelled: the task's error wins over the cancellation. */
  function StopExitOf(outcome: Outcome, callerCancelled: bool): StopExit {
    if outcome.Raised? then ExitTaskError else if callerCancelled then ExitCancelled else ExitNormal
  }

  function StopEnterStep(s: State): State
    requires s.task.Some? ==> s.task.value < |s.loops|
  {
    if s.task.None? then s.(stops := s.stops + [StopCall(None, Left(ExitNormal), false, false)]) else
    var l := s.loops[s.task.value];
    var s1 := WithLoop(s, s.task.value, l.(stop := true, wake := true)).(phase := Stopping);
    var pc := if l.pc.Ended? then Left(StopExitOf(l.pc.outcome, false)) else AwaitTask;
    s1.(stops := s.stops + [StopCall(s.task, pc, false, false)])
  }

  /** A cancelled caller is remembered and the wait goes on, unless the task it
      awaits has itself been cancelled by then. */
  function StopResumeStep(s: State, c: nat): State
    requires c < |s.stops| && s.stops[c].captured.Some? && s.stops[c].captured.value < |s.loops|
  {
    var call := s.stops[c];
    var pc := s.loops[call.captured.value].pc;
    var remembered := call.callerCancelled || (call.cancelRequested && pc != Ended(Cancelled));
    var call' := call.(cancelRequested := false, callerCancelled := remembered,
                       pc := if pc.Ended? then Left(StopExitOf(pc.outcome, remembered)) else AwaitTask);
    s.(stops := s.stops[c := call'])
  }

  /** The head of the loop: leave when asked to stop, else start a batch. */
  function HeadStep(s: State, g: nat): State
    requires g < |s.loops|
  {
    var l := s.loops[g];
    if l.stop then EndLoop(s, g, Returned) else
    var b := |s.batches|;
    WithLoop(s, g, l.(pc := AwaitBatch, batch := Some(b), batchesCreated := l.batchesCreated + 1))
      .(batches := s.batches + [Batch(g, FRESH, false, 0)], activeBatch := Some(b))
  }

  function DrainOutcome(b: Batch): Outcome { if b.worker == Finished(Error) then Raised else Cancelled }

  function CountCancel(s: State, b: nat): State
    requires b < |s.batches|
  {
    s.(batches := s.batches[b := s.batches[b].(cancels := s.batches[b].cancels + 1)])
  }

  /** The case table of the loop coroutine: each row is one resumption. */
  function LoopStep(s: State, g: nat, how: Resume): State
    requires g < |s.loops| && (Draining(s.loops[g].pc) ==> LoopBatchValid(s, g))
  {
    var l0 := s.loops[g];
    var l := l0.(cancelRequested := false);
    var s := WithLoop(s, g, l);
    match l.pc
    case Ended(_) => s
    case Unstarted => if how.ByCancel? then EndLoop(s, g, Cancelled) else HeadStep(s, g)
    case AwaitWake =>
      if how.ByCancel? then EndLoop(s, g, Cancelled)
      else if how.ByTimer? then HeadStep(WithLoop(s, g, l.(timeouts := l.timeouts + 1)), g)
      else HeadStep(s, g)
    case AwaitBatch =>
      var batch := s.batches[l.batch.value];
      if !how.ByCancel? then
        var s := s.(activeBatch := None);
        if l.stop then EndLoop(s, g, Returned) else WithLoop(s, g, l.(pc := AwaitWake))
      else if batch.done then
        EndLoop(WithLoop(s, g, l.(stop := true, wake := true)).(activeBatch := None), g, DrainOutcome(batch))
      else
        CountCancel(WithLoop(s, g, l.(pc := DrainBatch, stop := true, wake := true)), l.batch.value)
    case DrainBatch =>
      var batch := s.batches[l.batch.value];
      if !how.ByCancel? then EndLoop(s.(activeBatch := None), g, DrainOutcome(batch))
      else if batch.done then EndLoop(s.(activeBatch := None), g, Cancelled)
      else CountCancel(WithLoop(s, g, l.(pc := FinalDrain)), l.batch.value)
    case FinalDrain =>
      var batch := s.batches[l.batch.value];
      if !how.ByCancel? then EndLoop(s, g, DrainOutcome(batch))
      else if batch.done then EndLoop(s, g, Cancelled)
      else CountCancel(EndLoop(s, g, Cancelled), l.batch.value)
  }

  function CallbackStep(s: State, g: nat): State
    requires g < |s.loops|
  {
    var s := WithLoop(s, g, s.loops[g].(callbackPending := false));
    if s.task == Some(g) then Released(s) else s
  }

  function ThreadCheckStep(s: State, b: nat): State
    requires b < |s.batches| && s.batches[b].worker.AtCheck? && s.batches[b].owner < |s.loops|
  {
    var batch := s.batches[b];
    s.(batches := s.batches[b := batch.(worker := AfterCheck(batch.worker, s.loops[batch.owner].stop))])
  }

  function ThreadRunStep(s: State, b: nat, r: RunResult): State
    requires b < |s.batches| && s.batches[b].worker.InRun? && s.batches[b].owner < |s.loops|
    requires Gone(r) <= s.expired
  {
    var batch := s.batches[b];
    var l := s.loops[batch.owner];
    WithLoop(s, batch.owner, l.(runs := l.runs + 1, rowsDeleted := l.rowsDeleted + Gone(r)))
      .(batches := s.batches[b := batch.(worker := AfterRun(batch.worker, r))],
        expired := s.expired - Gone(r), deleted := s.deleted + Gone(r))
  }

  ghost function Apply(s: State, e: Event): State
    requires Enabled(s, e)
  {
    match e
    case Start => StartStep(s)
    case StopEnter => StopEnterStep(s)
    case StopResume(c) => StopResumeStep(s, c)
    case StopCancelRequest(c) => s.(stops := s.stops[c := s.stops[c].(cancelRequested := true)])
    case LoopResume(g, how) => LoopStep(s, g, how)
    case LoopCancelRequest(g) => WithLoop(s, g, s.loops[g].(cancelRequested := true))
    case DoneCallback(g) => CallbackStep(s, g)
    case ThreadCheck(b) => ThreadCheckStep(s, b)
    case ThreadRun(b, r) => ThreadRunStep(s, b, r)
    case BatchDone(b) => s.(batches := s.batches[b := s.batches[b].(done := true)])
    case RowsExpire(n) => s.(expired := s.expired + n, arrived := s.arrived + n)
  }

  // ---- Runs ------------------------------------------------------------------

  ghost predicate Legal(s: State, es: seq<Event>)
    decreases |es|
  {
    es == [] || (Enabled(s, es[0]) && Legal(Apply(s, es[0]), es[1..]))
  }

  ghost function Run(s: State, es: seq<Event>): State
    requires Legal(s, es)
    decreases |es|
  {
    if es == [] then s else Run(Apply(s, es[0]), es[1..])
  }

  // ---- The invariant ---------------------------------------------------------

  ghost predicate LoopOk(s: State, g: nat)
    requires g < |s.loops|
  {
    var l := s.loops[g];
    && l.wake == l.stop
    && (l.callbackPending ==> l.pc.Ended?)
    && (!l.pc.Ended? ==> s.task == Some(g))
    && (l.batch.Some? ==> l.batch.value < |s.batches| && s.batches[l.batch.value].owner == g)
    && ((l.pc.Unstarted? || l.pc.AwaitWake?) ==>
          s.activeBatch == None && (l.batch.Some? ==> s.batches[l.batch.value].done))
    && (Draining(l.pc) ==> l.batch.Some? && s.activeBatch == l.batch)
    && ((l.pc.DrainBatch? || l.pc.FinalDrain?) ==> l.stop)
    && l.batchesCreated <= l.timeouts + 1
    && (!l.pc.Ended? ==> l.batchesCreated == l.timeouts + (if l.pc.Unstarted? then 0 else 1))
  }

  /** How many cancellations a loop has taken while its batch is in flight. */
  function CancelsAt(pc: Pc): nat {
    if pc.DrainBatch? then 1 else if pc.FinalDrain? then 2 else if pc.Ended? then 3 else 0
  }

  ghost predicate BatchOk(s: State, b: nat)
    requires b < |s.batches|
  {
    var batch := s.batches[b];
    && batch.owner < |s.loops|
    && (batch.done ==> batch.worker.Finished?)
    && (!batch.done ==>
          && s.loops[batch.owner].batch == Some(b)
          && (Draining(s.loops[batch.owner].pc) || s.loops[batch.owner].pc.Ended?)
          && batch.cancels == CancelsAt(s.loops[batch.owner].pc))
  }

  ghost predicate StopOk(s: State, c: nat)
    requires c < |s.stops|
  {
    var call := s.stops[c];
    match call.captured
    case None => call.pc == Left(ExitNormal)
    case Some(g) =>
      && g < |s.loops| && s.loops[g].stop
      && (call.pc.Left? ==>
            && s.loops[g].pc.Ended?
            && call.pc.how == StopExitOf(s.loops[g].pc.outcome, call.callerCancelled))
  }

  ghost predicate Ownership(s: State) {
    && s.wakeEvent == s.task && s.stopEvent == s.task
    && (s.task.None? <==> s.phase == Stopped)
    && (s.task.None? ==> s.activeBatch.None?)
    && (s.task.Some? ==> s.task.value == |s.loops| - 1)
    && (s.task.Some? && s.loops[s.task.value].pc.Ended? ==> s.loops[s.task.value].callbackPending)
    && (s.phase == Stopping ==> s.loops[s.task.value].stop)
  }

  ghost predicate Inv(s: State) {
    && Ownership(s)
    && (forall g :: 0 <= g < |s.loops| ==> LoopOk(s, g))
    && (forall b :: 0 <= b < |s.batches| ==> BatchOk(s, b))
    && (forall c :: 0 <= c < |s.stops| ==> StopOk(s, c))
    && s.expired + s.deleted == s.arrived
  }
}
