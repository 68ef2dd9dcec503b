// core/route_state_cleanup_scheduler.py itself: the module's globals as fields,
// one method per stretch of code between two awaits, with the source's branches,
// finally blocks and exceptions. Each method is proved to take exactly the
// protocol's step, so everything SchedulerTheorems says of runs is said of it.
module SchedulerMachine {
  import opened CleanupWorker
  import opened Options
  import opened SchedulerProtocol
  import opened SchedulerTheorems

  class RouteStateCleanupScheduler {
    // Module globals.
    var task: Option<nat>
    var wakeEvent: Option<nat>
    var threadStopEvent: Option<nat>
    var activeBatch: Option<nat>
    var phase: Phase

    // The objects they refer to, and the calls of stop still on the stack.
    var loops: seq<LoopTask>
    var batches: seq<Batch>
    var stops: seq<StopCall>

    // The expired rows the worker threads delete.
    var expired: nat
    ghost var arrived: nat
    ghost var deleted: nat

    ghost function Abs(): State
      reads this
    {
      State(task, wakeEvent, threadStopEvent, activeBatch, phase, loops, batches, stops, expired, arrived, deleted)
    }

    ghost predicate Valid()
      reads this
    {
      Inv(Abs())
    }

    constructor ()
      ensures Abs() == INIT
      ensures Valid()
    {
      task, wakeEvent, threadStopEvent, activeBatch, phase := None, None, None, None, Stopped;
      loops, batches, stops := [], [], [];
      expired, arrived, deleted := 0, 0, 0;
      new;
      assert Abs() == INIT;
      InitInv();
    }

    /** _finalize_scheduler_ownership: called by start on a finished task it
        still owns, and by the event loop once for every finished task. */
    method FinalizeSchedulerOwnership(g: nat)
      modifies this`task, this`wakeEvent, this`threadStopEvent, this`activeBatch, this`phase
      ensures Abs() == if old(task) == Some(g) then Released(old(Abs())) else old(Abs())
    {
      if task != Some(g) {
        return;
      }
      task := None;
      wakeEvent := None;
      threadStopEvent := None;
      activeBatch := None;
      phase := Stopped;
    }

    /** start_route_state_cleanup_scheduler */
    method Start()
      requires Valid()
      modifies this
      ensures Abs() == Apply(old(Abs()), Event.Start)
      ensures Valid()
    {
      StartKeepsInv(Abs());
      if task.Some? {
        if !loops[task.value].pc.Ended? {
          return;
        }
        FinalizeSchedulerOwnership(task.value);
      }
      var g := |loops|;
      wakeEvent := Some(g);
      threadStopEvent := Some(g);
      loops := loops + [NEW_LOOP];
      task := Some(g);
      phase := Running;
    }

    method DoneCallback(g: nat)
      requires Valid() && Enabled(Abs(), Event.DoneCallback(g))
      modifies this
      ensures Abs() == Apply(old(Abs()), Event.DoneCallback(g))
      ensures Valid()
    {
      CallbackKeepsInv(Abs(), g);
      loops := loops[g := loops[g].(callbackPending := false)];
      FinalizeSchedulerOwnership(g);
    }

    // ---- stop_route_state_cleanup_scheduler ----------------------------------

    /** Lines 66-71. */
    method LeaveStop(call: nat)
      requires call < |stops| && stops[call].captured.Some? && stops[call].captured.value < |loops|
      requires loops[stops[call].captured.value].pc.Ended?
      modifies this`stops
      ensures stops == old(stops)[call := old(stops[call]).(pc := Left(
                StopExitOf(loops[old(stops[call]).captured.value].pc.outcome, old(stops[call]).callerCancelled)))]
    {
      var c := stops[call];
      var outcome := loops[c.captured.value].pc.outcome;
      var how := ExitNormal;
      if outcome != Cancelled && outcome == Raised {
        how := ExitTaskError;
      } else if c.callerCancelled {
        how := ExitCancelled;
      }
      stops := stops[call := c.(pc := Left(how))];
    }

    /** Lines 44-57, up to the first await or the end. */
    method StopEnter() returns (call: nat)
      requires Valid()
      modifies this
      ensures Abs() == Apply(old(Abs()), Event.StopEnter)
      ensures Valid()
      ensures call == old(|stops|) && |stops| == call + 1
    {
      StopEnterKeepsInv(Abs());
      call := |stops|;
      var captured, capturedWake, capturedStop := task, wakeEvent, threadStopEvent;
      if captured.None? {
        stops := stops + [StopCall(None, Left(ExitNormal), false, false)];
        return;
      }
      phase := Stopping;
      if capturedStop.Some? {
        loops := loops[capturedStop.value := loops[capturedStop.value].(stop := true)];
      }
      if capturedWake.Some? {
        loops := loops[capturedWake.value := loops[capturedWake.value].(wake := true)];
      }
      stops := stops + [StopCall(captured, AwaitTask, false, false)];
      if loops[captured.value].pc.Ended? {
        LeaveStop(call);
      }
    }

    /** Lines 57-71 from the await of line 59 on, up to the next await or the end. */
    method StopResume(call: nat)
      requires Valid() && Enabled(Abs(), Event.StopResume(call))
      modifies this`stops
      ensures Abs() == Apply(old(Abs()), Event.StopResume(call))
      ensures Valid()
    {
      StopResumeKeepsInv(Abs(), call);
      var c := stops[call];
      var pc := loops[c.captured.value].pc;
      stops := stops[call := c.(cancelRequested := false)];
      if c.cancelRequested || pc == Ended(Cancelled) {
        // The shield delivers a CancelledError: the caller's own, or the task's.
        if pc == Ended(Cancelled) {
          LeaveStop(call);
          return;
        }
        stops := stops[call := stops[call].(callerCancelled := true)];
      } else if pc == Ended(Raised) {
        // The shield re-raises the task's exception out of the loop.
        stops := stops[call := stops[call].(pc := Left(ExitTaskError))];
        return;
      }
      if loops[c.captured.value].pc.Ended? {
        LeaveStop(call);
      }
    }

    // ---- _scheduler_loop -----------------------------------------------------

    /** Resuming a task uses up the cancellation that was waiting for it. */
    method TakeCancellation(g: nat)
      requires g < |loops|
      modifies this`loops
      ensures Abs() == WithLoop(old(Abs()), g, old(loops[g]).(cancelRequested := false))
    {
      loops := loops[g := loops[g].(cancelRequested := false)];
    }

    /** History: a cancellation taken while the batch is still running. */
    method RecordCancel(batch: nat, how: Resume)
      requires batch < |batches|
      modifies this`batches
      ensures Abs() == if how.ByCancel? && !old(batches[batch].done) then CountCancel(old(Abs()), batch) else old(Abs())
    {
      if how.ByCancel? && !batches[batch].done {
        batches := batches[batch := batches[batch].(cancels := batches[batch].cancels + 1)];
      }
    }

    /** The coroutine is over: the task is done and its callback is scheduled. */
    method Finish(g: nat, outcome: Outcome)
      requires g < |loops|
      modifies this`loops
      ensures Abs() == EndLoop(old(Abs()), g, outcome)
    {
      loops := loops[g := loops[g].(pc := Ended(outcome), cancelRequested := false, callbackPending := true)];
    }

    /** Lines 111-113. */
    method InnerFinally(batch: nat)
      requires batch < |batches|
      modifies this`activeBatch
      ensures activeBatch == if old(activeBatch) == Some(batch) && batches[batch].done then None else old(activeBatch)
    {
      if activeBatch == Some(batch) && batches[batch].done {
        activeBatch := None;
      }
    }

    /** Lines 124-128, with the exception or return that is on its way out. */
    method OuterFinally(g: nat, pending: Outcome)
      requires g < |loops| && (activeBatch.Some? ==> activeBatch.value < |batches|)
      modifies this`loops
      ensures Abs() == if activeBatch.Some? && !batches[activeBatch.value].done
                       then WithLoop(old(Abs()), g, old(loops[g]).(stop := true, pc := FinalDrain))
                       else EndLoop(old(Abs()), g, pending)
    {
      var batch := activeBatch;
      if batch.Some? && !batches[batch.value].done {
        loops := loops[g := loops[g].(stop := true)];
        loops := loops[g := loops[g].(pc := FinalDrain)];
      } else {
        Finish(g, pending);
      }
    }

    /** Line 99, and lines 100-103 up to the await. */
    method LoopHead(g: nat)
      requires g < |loops| && (activeBatch.Some? ==> activeBatch.value < |batches| && batches[activeBatch.value].done)
      modifies this`loops, this`batches, this`activeBatch
      ensures Abs() == HeadStep(old(Abs()), g)
    {
      if loops[g].stop {
        OuterFinally(g, Returned);
        return;
      }
      var batch := |batches|;
      batches := batches + [Batch(g, FRESH, false, 0)];
      var created := loops[g].batchesCreated + 1;
      loops := loops[g := loops[g].(pc := AwaitBatch, batch := Some(batch), batchesCreated := created)];
      activeBatch := Some(batch);
    }

    /** Lines 111-113 and 124-128 on the way out of a finished batch. */
    method LeaveBatch(g: nat, batch: nat, pending: Outcome)
      requires g < |loops| && batch < |batches| && batches[batch].done && activeBatch == Some(batch)
      modifies this`loops, this`activeBatch
      ensures Abs() == EndLoop(old(Abs()).(activeBatch := None), g, pending)
    {
      InnerFinally(batch);
      OuterFinally(g, pending);
    }

    /** Lines 105-106. */
    method SetEvents(g: nat)
      requires g < |loops|
      modifies this`loops
      ensures Abs() == WithLoop(old(Abs()), g, old(loops[g]).(stop := true, wake := true))
    {
      loops := loops[g := loops[g].(stop := true)];
      loops := loops[g := loops[g].(wake := true)];
    }

    /** Lines 104-107: a CancelledError out of the await of line 103, while the batch
        is running. Both events are set and the batch is awaited again. */
    method CancelledInBatch(g: nat)
      requires g < |loops| && loops[g].pc.AwaitBatch? && loops[g].batch.Some? && loops[g].batch.value < |batches|
      requires !batches[loops[g].batch.value].done
      modifies this`loops, this`batches
      ensures Abs() == LoopStep(old(Abs()), g, ByCancel)
    {
      TakeCancellation(g);
      RecordCancel(loops[g].batch.value, ByCancel);
      SetEvents(g);
      loops := loops[g := loops[g].(pc := DrainBatch)];
    }

    /** The same when the batch is done: awaiting it does not suspend, it raises or
        falls through to the `raise` of line 108. */
    method CancelledAfterBatch(g: nat)
      requires g < |loops| && loops[g].pc.AwaitBatch? && loops[g].batch.Some? && loops[g].batch.value < |batches|
      requires activeBatch == loops[g].batch && batches[loops[g].batch.value].done
      modifies this`loops, this`activeBatch
      ensures Abs() == LoopStep(old(Abs()), g, ByCancel)
    {
      TakeCancellation(g);
      SetEvents(g);
      var batch := loops[g].batch.value;
      LeaveBatch(g, batch, if batches[batch].worker == Finished(Error) then Raised else Cancelled);
    }

    /** The await of line 103 has returned, or raised the batch's exception, which
        is logged and otherwise treated like a result. */
    method BatchFinished(g: nat, how: Resume)
      requires g < |loops| && loops[g].pc.AwaitBatch? && loops[g].batch.Some? && loops[g].batch.value < |batches|
      requires activeBatch == loops[g].batch && !how.ByCancel? && batches[loops[g].batch.value].done
      modifies this`loops, this`activeBatch
      ensures Abs() == LoopStep(old(Abs()), g, how)
    {
      TakeCancellation(g);
      InnerFinally(loops[g].batch.value);
      if loops[g].stop {
        OuterFinally(g, Returned);
        return;
      }
      loops := loops[g := loops[g].(pc := AwaitWake)];
    }

    /** The await of line 107 has returned or raised; line 108 re-raises. */
    method AfterDrain(g: nat, how: Resume)
      requires g < |loops| && loops[g].pc.DrainBatch? && loops[g].batch.Some? && loops[g].batch.value < |batches|
      requires activeBatch == loops[g].batch && loops[g].stop
      requires !how.ByCancel? ==> batches[loops[g].batch.value].done
      modifies this`loops, this`batches, this`activeBatch
      ensures Abs() == LoopStep(old(Abs()), g, how)
    {
      TakeCancellation(g);
      var batch := loops[g].batch.value;
      RecordCancel(batch, how);
      var pending := if !how.ByCancel? && batches[batch].worker == Finished(Error) then Raised else Cancelled;
      InnerFinally(batch);
      OuterFinally(g, pending);
    }

    /** The await of line 128 has returned or raised. Leaving the outer finally
        block re-raises the pending CancelledError, unless the await raises
        something else. */
    method AfterFinalDrain(g: nat, how: Resume)
      requires g < |loops| && loops[g].pc.FinalDrain? && loops[g].batch.Some? && loops[g].batch.value < |batches|
      requires !how.ByCancel? ==> batches[loops[g].batch.value].done
      modifies this`loops, this`batches
      ensures Abs() == LoopStep(old(Abs()), g, how)
    {
      TakeCancellation(g);
      var batch := loops[g].batch.value;
      RecordCancel(batch, how);
      Finish(g, if !how.ByCancel? && batches[batch].worker == Finished(Error) then Raised else Cancelled);
    }

    /** The await of line 118 has returned, timed out or been cancelled. */
    method AfterWait(g: nat, how: Resume)
      requires g < |loops| && loops[g].pc.AwaitWake? && activeBatch.None?
      modifies this`loops, this`batches, this`activeBatch
      ensures Abs() == LoopStep(old(Abs()), g, how)
    {
      TakeCancellation(g);
      if how.ByCancel? {
        OuterFinally(g, Cancelled);
        return;
      }
      if how.ByTimer? {
        loops := loops[g := loops[g].(timeouts := loops[g].timeouts + 1)];
      }
      LoopHead(g);
    }

    /** One resumption of the loop coroutine, up to its next await or its end. */
    method ResumeLoop(g: nat, how: Resume)
      requires Valid() && LoopCanResume(Abs(), g, how)
      modifies this`loops, this`batches, this`activeBatch
      ensures Abs() == Apply(old(Abs()), LoopResume(g, how))
      ensures Valid()
    {
      LoopStepKeepsInv(Abs(), g, how);
      assert LoopOk(Abs(), g);
      match loops[g].pc {
        case Unstarted =>
          TakeCancellation(g);
          if how.ByCancel? { Finish(g, Cancelled); } else { LoopHead(g); }
        case AwaitBatch =>
          if !how.ByCancel? {
            BatchFinished(g, how);
          } else if batches[loops[g].batch.value].done {
            CancelledAfterBatch(g);
          } else {
            CancelledInBatch(g);
          }
        case DrainBatch => AfterDrain(g, how);
        case AwaitWake => AfterWait(g, how);
        case FinalDrain => AfterFinalDrain(g, how);
      }
    }

    // ---- _run_bounded_cleanup, on its thread ---------------------------------

    /** Line 134, in the thread of batch `b`. */
    method CheckStopEvent(b: nat)
      requires Valid() && Enabled(Abs(), ThreadCheck(b))
      modifies this`batches
      ensures Abs() == Apply(old(Abs()), ThreadCheck(b))
      ensures Valid()
    {
      WorkerKeepsInv(Abs(), ThreadCheck(b));
      var batch := batches[b];
      if batch.worker.turn == MAX_BATCHES_PER_RUN || loops[batch.owner].stop {
        batches := batches[b := batch.(worker := Finished(Total(batch.worker.total)))];
      } else {
        batches := batches[b := batch.(worker := InRun(batch.worker.turn, batch.worker.total))];
      }
    }

    /** Lines 136-139: the run has returned or raised. */
    method TakeRunResult(b: nat, r: RunResult)
      requires b < |batches| && batches[b].worker.InRun? && batches[b].owner < |loops| && Gone(r) <= expired
      modifies this`batches, this`loops, this`expired, this`deleted
      ensures Abs() == ThreadRunStep(old(Abs()), b, r)
    {
      var batch := batches[b];
      var l := loops[batch.owner];
      loops := loops[batch.owner := l.(runs := l.runs + 1, rowsDeleted := l.rowsDeleted + Gone(r))];
      expired := expired - Gone(r);
      deleted := deleted + Gone(r);
      if r.RunFailed? {
        batches := batches[b := batch.(worker := Finished(Error))];
        return;
      }
      var total := batch.worker.total + r.rows;
      if r.rows < BATCH_LIMIT {
        batches := batches[b := batch.(worker := Finished(Total(total)))];
      } else {
        batches := batches[b := batch.(worker := AtCheck(batch.worker.turn + 1, total))];
      }
    }

    /** One run in the thread of batch `b`. */
    method CompleteRun(b: nat, r: RunResult)
      requires Valid() && Enabled(Abs(), ThreadRun(b, r))
      modifies this`batches, this`loops, this`expired, this`deleted
      ensures Abs() == Apply(old(Abs()), ThreadRun(b, r))
      ensures Valid()
    {
      WorkerKeepsInv(Abs(), ThreadRun(b, r));
      TakeRunResult(b, r);
    }
  }
}
