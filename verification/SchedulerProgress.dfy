// What the scheduler does, as opposed to what it never does: an undisturbed loop
// goes on, every interval timer starts a batch, every call has its effect, and the
// history fields count what happened.
module SchedulerProgress {
  import opened CleanupWorker
  import opened Options
  import opened SchedulerProtocol
  import opened SchedulerTheorems

  // ---- An undisturbed loop goes on -------------------------------------------

  /** No cancellation has reached the generation, and it has ended, if at all,
      because it was told to stop. */
  ghost predicate Undisturbed(s: State, g: nat) {
    g < |s.loops| ==>
      var l := s.loops[g];
      && !l.cancelRequested && !l.pc.DrainBatch? && !l.pc.FinalDrain?
      && (l.pc.Ended? ==> l.stop && l.pc.outcome == Returned)
  }

  lemma LoopStepUndisturbed(s: State, h: nat, how: Resume, g: nat)
    requires Inv(s) && LoopCanResume(s, h, how) && Undisturbed(s, g)
    ensures Undisturbed(LoopStep(s, h, how), g)
  {
    LoopStepFrame(s, h, how);
    assert LoopOk(s, h);
  }

  lemma StepUndisturbed(s: State, e: Event, g: nat)
    requires Inv(s) && Enabled(s, e) && Undisturbed(s, g) && e != LoopCancelRequest(g)
    ensures Undisturbed(Apply(s, e), g)
  {
    if e.LoopResume? {
      LoopStepUndisturbed(s, e.g, e.how, g);
    } else if e.ThreadRun? {
      assert BatchOk(s, e.b);
    }
  }

  lemma {:induction false} RunUndisturbed(s: State, es: seq<Event>, g: nat)
    requires Inv(s) && Legal(s, es) && Undisturbed(s, g) && CancelRequests(es, g) == 0
    ensures Undisturbed(Run(s, es), g)
    decreases |es|
  {
    if es != [] {
      StepKeepsInv(s, es[0]);
      StepUndisturbed(s, es[0], g);
      RunUndisturbed(Apply(s, es[0]), es[1..], g);
    }
  }

  /** Main result: whatever its batches do, a loop task that nobody cancels ends only
      after its stop event was set, and then it returns. */
  lemma LoopEndsOnlyWhenStopped(s0: State, es: seq<Event>, g: nat)
    requires Idle(s0) && Legal(s0, es) && CancelRequests(es, g) == 0 && Live(Run(s0, es), g) == false
    requires g < |Run(s0, es).loops|
    ensures Run(s0, es).loops[g].stop && Run(s0, es).loops[g].pc == Ended(Returned)
  {
    RunUndisturbed(s0, es, g);
  }

  /** Main result: at the start, and whenever the interval timer goes off, a loop that
      was not told to stop begins one fresh batch of its own and waits for it. */
  lemma BatchBegins(s: State, g: nat, how: Resume)
    requires Reachable(s) && Enabled(s, LoopResume(g, how)) && !s.loops[g].stop
    requires how == ByTimer || (how == ByCompletion && s.loops[g].pc.Unstarted?)
    ensures var s' := Apply(s, LoopResume(g, how));
            var b := |s.batches|;
            && |s'.batches| == b + 1 && s'.batches[..b] == s.batches
            && s'.batches[b].owner == g && s'.batches[b].worker == AtCheck(0, 0) && !s'.batches[b].done
            && s'.loops[g].pc == AwaitBatch && s'.loops[g].batch == Some(b) && s'.activeBatch == Some(b)
            && s'.loops[g].batchesCreated == s.loops[g].batchesCreated + 1
            && s'.loops[g].timeouts == s.loops[g].timeouts + (if how == ByTimer then 1 else 0)
  {
    ReachableInv(s);
  }

  /** A batch that ends, failed or not, brings an undisturbed loop to its timer. */
  lemma BatchEndsInWait(s: State, g: nat)
    requires Reachable(s) && Enabled(s, LoopResume(g, ByCompletion)) && s.loops[g].pc.AwaitBatch? && !s.loops[g].stop
    ensures var s' := Apply(s, LoopResume(g, ByCompletion));
            && s'.loops[g] == s.loops[g].(pc := AwaitWake) && s'.activeBatch == None
            && s'.batches == s.batches && Enabled(s', LoopResume(g, ByTimer))
  {
    ReachableInv(s);
  }

  // ---- No generation gets stuck or runs on between timers ---------------------

  /** The steps left to a worker thread. */
  function ThreadRank(w: Worker): int {
    match w
    case AtCheck(turn, _) => 2 * (MAX_BATCHES_PER_RUN - turn) + 1
    case InRun(turn, _) => 2 * (MAX_BATCHES_PER_RUN - turn)
    case Finished(_) => 0
  }

  function BatchRank(b: Batch): int { if b.done then 0 else ThreadRank(b.worker) + 1 }

  function PcRank(l: LoopTask): int {
    match l.pc
    case Unstarted => 28
    case AwaitBatch => 5
    case DrainBatch => 4
    case FinalDrain => 3
    case AwaitWake => 2
    case Ended(_) => if l.callbackPending then 1 else 0
  }

  /** The steps left to a generation until its next timer. */
  ghost function CycleRank(s: State, g: nat): int
    requires g < |s.loops|
  {
    var l := s.loops[g];
    PcRank(l) + (if l.batch.Some? && l.batch.value < |s.batches| then BatchRank(s.batches[l.batch.value]) else 0)
  }

  lemma CycleRankBounds(s: State, g: nat)
    requires Inv(s) && WorkOk(s) && g < |s.loops|
    ensures 0 <= CycleRank(s, g) <= 28
  {
    var l := s.loops[g];
    assert LoopOk(s, g);
    if l.batch.Some? { assert WorkerOk(s.batches[l.batch.value].worker); }
  }

  /** What a step may cost: an own step lowers the rank, unless it is the timer's. */
  ghost predicate CyclePaid(s: State, s': State, g: nat, own: bool) {
    && g < |s.loops| && g < |s'.loops|
    && s'.loops[g].timeouts >= s.loops[g].timeouts
    && CycleRank(s', g) + (if own then 1 else 0)
       <= CycleRank(s, g) + 26 * (s'.loops[g].timeouts - s.loops[g].timeouts)
  }

  lemma OwnLoopStepPaid(s: State, g: nat, how: Resume)
    requires Inv(s) && WorkOk(s) && LoopCanResume(s, g, how)
    ensures CyclePaid(s, LoopStep(s, g, how), g, true)
  {
    assert LoopOk(s, g);
    if s.loops[g].batch.Some? {
      assert BatchOk(s, s.loops[g].batch.value) && WorkerOk(s.batches[s.loops[g].batch.value].worker);
    }
  }

  lemma OtherLoopStepPaid(s: State, h: nat, how: Resume, g: nat)
    requires Inv(s) && LoopCanResume(s, h, how) && g < |s.loops| && g != h
    ensures CyclePaid(s, LoopStep(s, h, how), g, false)
  {
    LoopStepFrame(s, h, how);
    assert LoopOk(s, g);
    LoopStepOfOther(s, h, how, g);
  }

  lemma WorkerStepPaid(s: State, e: Event, g: nat)
    requires Inv(s) && WorkOk(s) && Enabled(s, e) && (e.ThreadCheck? || e.ThreadRun? || e.BatchDone?)
    requires g < |s.loops|
    ensures CyclePaid(s, Apply(s, e), g, s.loops[g].batch == Some(e.b))
  {
    assert BatchOk(s, e.b) && LoopOk(s, g) && WorkerOk(s.batches[e.b].worker);
  }

  lemma OtherStepPaid(s: State, e: Event, g: nat)
    requires Inv(s) && Enabled(s, e) && g < |s.loops|
    requires !e.LoopResume? && !e.ThreadCheck? && !e.ThreadRun? && !e.BatchDone?
    ensures CyclePaid(s, Apply(s, e), g, e == DoneCallback(g))
  {
    OtherStepFrame(s, e, g);
    assert LoopOk(s, g);
  }

  lemma StepPaid(s: State, e: Event, g: nat)
    requires Inv(s) && WorkOk(s) && Enabled(s, e) && g < |s.loops|
    ensures CyclePaid(s, Apply(s, e), g, OwnStep(s, e, g))
  {
    if e.LoopResume? {
      if e.g == g { OwnLoopStepPaid(s, g, e.how); } else { OtherLoopStepPaid(s, e.g, e.how, g); }
    } else if e.ThreadCheck? || e.ThreadRun? || e.BatchDone? {
      WorkerStepPaid(s, e, g);
    } else {
      OtherStepPaid(s, e, g);
    }
  }

  /** How many steps of its own a generation takes in a run. */
  ghost function OwnCount(s: State, es: seq<Event>, g: nat): nat
    requires Legal(s, es)
    decreases |es|
  {
    if es == [] then 0
    else (if g < |s.loops| && OwnStep(s, es[0], g) then 1 else 0) + OwnCount(Apply(s, es[0]), es[1..], g)
  }

  lemma {:induction false} CyclesPaid(s: State, es: seq<Event>, g: nat)
    requires Inv(s) && WorkOk(s) && Legal(s, es) && g < |s.loops|
    ensures var s' := Run(s, es);
            && g < |s'.loops| && s'.loops[g].timeouts >= s.loops[g].timeouts
            && OwnCount(s, es, g) + CycleRank(s', g)
               <= CycleRank(s, g) + 26 * (s'.loops[g].timeouts - s.loops[g].timeouts)
    decreases |es|
  {
    if es != [] {
      StepPaid(s, es[0], g);
      StepKeepsInv(s, es[0]);
      StepKeepsWork(s, es[0]);
      CyclesPaid(Apply(s, es[0]), es[1..], g);
    }
  }

  /** While its task has not ended a generation always has a step to take. */
  lemma LiveHasNextStep(s: State, g: nat) returns (e: Event)
    requires Inv(s) && Live(s, g)
    ensures Enabled(s, e) && OwnStep(s, e, g)
  {
    var l := s.loops[g];
    assert LoopOk(s, g);
    if Draining(l.pc) && !s.batches[l.batch.value].done {
      var b := l.batch.value;
      assert BatchOk(s, b);
      match s.batches[b].worker
      case AtCheck(_, _) => return ThreadCheck(b);
      case InRun(_, _) => return ThreadRun(b, RunFailed(0));
      case Finished(_) => return BatchDone(b);
    }
    if l.cancelRequested { return LoopResume(g, ByCancel); }
    return LoopResume(g, if l.pc.AwaitWake? then ByTimer else ByCompletion);
  }

  /** Main result: from any state on, a generation that has not ended can always take
      a step of its own, and between two of its timers it takes at most 26. So an
      undisturbed loop never stalls before its next timer, nor runs past it. */
  lemma GenerationKeepsGoing(s: State, es: seq<Event>, g: nat)
    requires Reachable(s) && Legal(s, es) && g < |s.loops|
    ensures var s' := Run(s, es);
            && g < |s'.loops|
            && OwnCount(s, es, g) <= 28 + 26 * (s'.loops[g].timeouts - s.loops[g].timeouts)
            && (Live(s', g) ==> exists e :: Enabled(s', e) && OwnStep(s', e, g))
  {
    ReachableInv(s);
    ReachableWork(s);
    CyclesPaid(s, es, g);
    RunKeepsInv(s, es);
    RunKeepsWork(s, es);
    CycleRankBounds(s, g);
    CycleRankBounds(Run(s, es), g);
    if Live(Run(s, es), g) {
      var e := LiveHasNextStep(Run(s, es), g);
    }
  }

  // ---- What each call does ---------------------------------------------------

  /** After a start there is a live task that owns everything: the one there was,
      with nothing changed, or a new one with clear events. */
  lemma StartMakesLive(s: State)
    requires Reachable(s)
    ensures Enabled(s, Start)
    ensures var s' := Apply(s, Start);
            && s'.task.Some? && Live(s', s'.task.value)
            && (s.task.Some? && Live(s, s.task.value) ==> s' == s)
            && (!(s.task.Some? && Live(s, s.task.value)) ==>
                  var g := |s.loops|;
                  && s'.task == Some(g) && s'.wakeEvent == Some(g) && s'.stopEvent == Some(g)
                  && s'.activeBatch == None && s'.phase == Running
                  && |s'.loops| == g + 1 && s'.loops[..g] == s.loops
                  && s'.loops[g].pc == Unstarted && !s'.loops[g].stop && !s'.loops[g].wake
                  && !s'.loops[g].cancelRequested && s'.loops[g].batch == None
                  && s'.batches == s.batches && s'.stops == s.stops && s'.expired == s.expired)
  {
    ReachableInv(s);
  }

  /** A stop call tells exactly the owned task to stop, or finds none and leaves. */
  lemma StopTellsItsTask(s: State)
    requires Reachable(s)
    ensures Enabled(s, StopEnter)
    ensures var s', c := Apply(s, StopEnter), |s.stops|;
            && |s'.stops| == c + 1 && s'.stops[..c] == s.stops
            && s'.stops[c].captured == s.task && !s'.stops[c].callerCancelled
            && s'.task == s.task && s'.batches == s.batches && s'.expired == s.expired && |s'.loops| == |s.loops|
            && (forall g :: 0 <= g < |s.loops| && s.task != Some(g) ==> s'.loops[g] == s.loops[g])
            && (s.task.None? ==> s'.stops[c].pc == Left(ExitNormal) && s'.phase == Stopped)
            && (s.task.Some? ==>
                  var g := s.task.value;
                  && s'.phase == Stopping
                  && s'.loops[g].stop && s'.loops[g].wake && s'.loops[g].pc == s.loops[g].pc
                  && (s'.stops[c].pc.AwaitTask? <==> Live(s, g)))
  {
    ReachableInv(s);
    if s.task.Some? { assert LoopOk(s, s.task.value); }
  }

  /** A cancellation of a stop call's caller reaches the call. */
  lemma CallerCancellationArrives(s: State, c: nat)
    requires Reachable(s) && Enabled(s, StopCancelRequest(c)) && s.stops[c].captured.Some?
    ensures var s' := Apply(s, StopCancelRequest(c));
            && s'.stops[c] == s.stops[c].(cancelRequested := true) && s' == s.(stops := s'.stops)
            && Enabled(s', StopResume(c)) && CancellationOwed(s', c)
  {
    ReachableInv(s);
    assert StopOk(s, c);
  }

  /** A resumed stop call uses up its caller's cancellation; it leaves exactly when its
      task has ended, and otherwise remembers the cancellation and waits on. */
  lemma ResumedStopWaitsOrLeaves(s: State, c: nat)
    requires Reachable(s) && Enabled(s, StopResume(c))
    ensures var s', g := Apply(s, StopResume(c)), s.stops[c].captured.value;
            && s' == s.(stops := s'.stops) && |s'.stops| == |s.stops|
            && (forall d :: 0 <= d < |s.stops| && d != c ==> s'.stops[d] == s.stops[d])
            && s'.stops[c].captured == s.stops[c].captured && !s'.stops[c].cancelRequested
            && (s'.stops[c].pc.Left? <==> !Live(s, g))
            && (Live(s, g) ==> s'.stops[c].callerCancelled)
            && (s'.stops[c].callerCancelled ==> s.stops[c].callerCancelled || s.stops[c].cancelRequested)
  {
    ReachableInv(s);
  }

  /** The done-callback of the owned task gives everything back. */
  lemma OwnCallbackReleases(s: State, g: nat)
    requires Reachable(s) && Enabled(s, DoneCallback(g)) && s.task == Some(g)
    ensures var s' := Apply(s, DoneCallback(g));
            && s'.task.None? && s'.wakeEvent.None? && s'.stopEvent.None? && s'.activeBatch.None? && s'.phase == Stopped
            && !s'.loops[g].callbackPending && s'.batches == s.batches && s'.stops == s.stops
  {
    ReachableInv(s);
  }

  /** A cancellation that is asked for reaches the loop: taken at the start or while
      it waits for its timer it ends the task as cancelled; taken while it waits for a
      batch it sets both events, and the task goes on waiting or ends. Either way the
      loop begins nothing more. */
  lemma CancellationStopsLoop(s: State, g: nat)
    requires Reachable(s) && Enabled(s, LoopCancelRequest(g))
    ensures var s1 := Apply(s, LoopCancelRequest(g));
            && Enabled(s1, LoopResume(g, ByCancel))
            && var s2 := Apply(s1, LoopResume(g, ByCancel));
            && s2.batches[..|s.batches|] == s2.batches && !s2.loops[g].cancelRequested
            && (s.loops[g].pc.Unstarted? || s.loops[g].pc.AwaitWake? ==> s2.loops[g].pc == Ended(Cancelled))
            && (Draining(s.loops[g].pc) ==> s2.loops[g].stop && s2.loops[g].wake)
  {
    ReachableInv(s);
    assert LoopOk(s, g);
  }

  ghost predicate Failed(b: Batch) { b.worker == Finished(Error) }

  /** How a loop that was waiting for a batch ends: by returning when the batch is
      over and nobody cancelled it; else with the batch's exception, exactly when it
      was waiting out a batch that failed and no further cancellation came first;
      else as cancelled. */
  lemma HowALoopEnds(s: State, g: nat, how: Resume)
    requires Reachable(s) && Enabled(s, LoopResume(g, how)) && Draining(s.loops[g].pc)
    requires Apply(s, LoopResume(g, how)).loops[g].pc.Ended?
    ensures var l, batch := s.loops[g], s.batches[s.loops[g].batch.value];
            var outcome := Apply(s, LoopResume(g, how)).loops[g].pc.outcome;
            && (outcome.Returned? <==> l.pc.AwaitBatch? && how != ByCancel)
            && (outcome.Raised? <==>
                  Failed(batch) && (if l.pc.AwaitBatch? then how == ByCancel && batch.done else how != ByCancel))
  {
    ReachableInv(s);
    assert LoopOk(s, g) && BatchOk(s, s.loops[g].batch.value);
  }

  // ---- The active batch ------------------------------------------------------

  /** The number of cancellations a loop has taken for its batch, done or not. */
  ghost predicate CancelsOk(s: State, g: nat)
    requires g < |s.loops|
  {
    var l := s.loops[g];
    LoopBatchValid(s, g) && !l.pc.Ended? ==>
      s.batches[l.batch.value].cancels == if l.pc.DrainBatch? then 1 else if l.pc.FinalDrain? then 2 else 0
  }

  /** The loop of the owned task waits for its batch - or waited for it in its last
      finally block until it ended, and its callback has not fired yet. */
  ghost predicate HoldsBatch(s: State, g: nat)
    requires g < |s.loops|
  {
    Draining(s.loops[g].pc)
    || (s.loops[g].pc.Ended? && LoopBatchValid(s, g) && s.batches[s.loops[g].batch.value].cancels >= 2)
  }

  ghost predicate ActiveOk(s: State) {
    && (forall g :: 0 <= g < |s.loops| ==> CancelsOk(s, g))
    && s.activeBatch == if s.task.Some? && s.task.value < |s.loops| && HoldsBatch(s, s.task.value)
                        then s.loops[s.task.value].batch else None
  }

  lemma LoopStepCancels(s: State, h: nat, how: Resume, g: nat)
    requires Inv(s) && ActiveOk(s) && LoopCanResume(s, h, how) && g < |s.loops|
    ensures g < |LoopStep(s, h, how).loops| && CancelsOk(LoopStep(s, h, how), g)
  {
    assert LoopOk(s, g) && CancelsOk(s, g);
    if g != h { LoopStepOfOther(s, h, how, g); LoopStepFrame(s, h, how); }
  }

  lemma LoopStepActive(s: State, g: nat, how: Resume)
    requires Inv(s) && ActiveOk(s) && LoopCanResume(s, g, how)
    ensures ActiveOk(LoopStep(s, g, how))
  {
    var s' := LoopStep(s, g, how);
    LoopStepFrame(s, g, how);
    assert LoopOk(s, g) && CancelsOk(s, g);
    forall h | 0 <= h < |s'.loops| ensures CancelsOk(s', h) { LoopStepCancels(s, g, how, h); }
  }

  lemma WorkerStepActive(s: State, e: Event)
    requires Inv(s) && ActiveOk(s) && Enabled(s, e) && (e.ThreadCheck? || e.ThreadRun? || e.BatchDone?)
    ensures ActiveOk(Apply(s, e))
  {
    assert BatchOk(s, e.b);
    var s' := Apply(s, e);
    forall g | 0 <= g < |s'.loops| ensures CancelsOk(s', g) { assert LoopOk(s, g) && CancelsOk(s, g); }
  }

  lemma OtherStepActive(s: State, e: Event)
    requires Inv(s) && ActiveOk(s) && Enabled(s, e)
    requires !e.LoopResume? && !e.ThreadCheck? && !e.ThreadRun? && !e.BatchDone?
    ensures ActiveOk(Apply(s, e))
  {
    var s' := Apply(s, e);
    forall g | 0 <= g < |s'.loops| ensures CancelsOk(s', g) {
      if g < |s.loops| { assert LoopOk(s, g) && CancelsOk(s, g); OtherStepFrame(s, e, g); }
    }
    if s.task.Some? { OtherStepFrame(s, e, s.task.value); }
  }

  lemma {:induction false} RunActive(s: State, es: seq<Event>)
    requires Inv(s) && ActiveOk(s) && Legal(s, es)
    ensures ActiveOk(Run(s, es))
    decreases |es|
  {
    if es != [] {
      var e := es[0];
      StepKeepsInv(s, e);
      if e.LoopResume? {
        LoopStepActive(s, e.g, e.how);
      } else if e.ThreadCheck? || e.ThreadRun? || e.BatchDone? {
        WorkerStepActive(s, e);
      } else {
        OtherStepActive(s, e);
      }
      RunActive(Apply(s, e), es[1..]);
    }
  }

  /** In every reachable state the active batch is the one the owned loop waits for,
      or was left with after a second cancellation; otherwise there is none. */
  lemma ActiveBatchExact(s: State)
    requires Reachable(s)
    ensures ActiveOk(s)
  {
    var s0, es :| Idle(s0) && Legal(s0, es) && Run(s0, es) == s;
    RunActive(s0, es);
  }

  // ---- The history fields count ----------------------------------------------

  /** The generation whose worker completes a run in this step. */
  ghost predicate RunOfGeneration(s: State, e: Event, g: nat)
    requires Enabled(s, e)
  {
    e.ThreadRun? && s.batches[e.b].owner == g
  }

  ghost function RunsSeen(s: State, es: seq<Event>, g: nat): nat
    requires Legal(s, es)
    decreases |es|
  {
    if es == [] then 0
    else (if RunOfGeneration(s, es[0], g) then 1 else 0) + RunsSeen(Apply(s, es[0]), es[1..], g)
  }

  ghost function RowsSeen(s: State, es: seq<Event>, g: nat): nat
    requires Legal(s, es)
    decreases |es|
  {
    if es == [] then 0
    else (if RunOfGeneration(s, es[0], g) then Gone(es[0].result) else 0) + RowsSeen(Apply(s, es[0]), es[1..], g)
  }

  ghost function TimersSeen(es: seq<Event>, g: nat): nat
    decreases |es|
  {
    if es == [] then 0 else (if es[0] == LoopResume(g, ByTimer) then 1 else 0) + TimersSeen(es[1..], g)
  }

  ghost function BatchesOf(batches: seq<Batch>, g: nat): nat {
    if batches == [] then 0
    else BatchesOf(batches[..|batches| - 1], g) + (if batches[|batches| - 1].owner == g then 1 else 0)
  }

  lemma {:induction false} SameOwners(a: seq<Batch>, b: seq<Batch>, g: nat)
    requires |a| == |b| && forall i :: 0 <= i < |a| ==> a[i].owner == b[i].owner
    ensures BatchesOf(a, g) == BatchesOf(b, g)
    decreases |a|
  {
    if a != [] {
      SameOwners(a[..|a| - 1], b[..|b| - 1], g);
    }
  }

  lemma BatchesOfNext(a: seq<Batch>, b: seq<Batch>, owner: nat, g: nat)
    requires |a| <= |b| <= |a| + 1 && forall i :: 0 <= i < |a| ==> a[i].owner == b[i].owner
    requires |b| > |a| ==> b[|a|].owner == owner
    ensures BatchesOf(b, g) - BatchesOf(a, g) == if g == owner then |b| - |a| else 0
  {
    SameOwners(a, b[..|a|], g);
    if |b| == |a| { assert b[..|a|] == b; } else { assert b[..|a|] == b[..|b| - 1]; }
  }

  lemma LoopStepCreates(s: State, g: nat, how: Resume)
    requires Inv(s) && LoopCanResume(s, g, how)
    ensures var s' := LoopStep(s, g, how);
            && |s'.loops| == |s.loops| && |s'.batches| >= |s.batches|
            && |s'.batches| - |s.batches| == s'.loops[g].batchesCreated - s.loops[g].batchesCreated
            && (|s'.batches| > |s.batches| ==> s'.batches[|s.batches|].owner == g)
  {
    assert LoopOk(s, g);
  }

  lemma LoopStepBatchesOf(s: State, h: nat, how: Resume, g: nat)
    requires Inv(s) && LoopCanResume(s, h, how)
    ensures var s' := LoopStep(s, h, how);
            && |s'.loops| == |s.loops|
            && BatchesOf(s'.batches, g) - BatchesOf(s.batches, g)
               == if g == h then s'.loops[g].batchesCreated - s.loops[g].batchesCreated else 0
  {
    LoopStepCreates(s, h, how);
    LoopStepFrame(s, h, how);
    BatchesOfNext(s.batches, LoopStep(s, h, how).batches, h, g);
  }

  /** Every field that only records says what the run did. */
  ghost predicate Recorded(s: State, s': State, g: nat, runs: int, rows: int, timers: int)
    requires g < |s.loops| && g < |s'.loops|
  {
    && s'.loops[g].runs == s.loops[g].runs + runs
    && s'.loops[g].rowsDeleted == s.loops[g].rowsDeleted + rows
    && s'.loops[g].timeouts == s.loops[g].timeouts + timers
    && s'.loops[g].batchesCreated - s.loops[g].batchesCreated
       == BatchesOf(s'.batches, g) - BatchesOf(s.batches, g)
  }

  lemma LoopStepRecorded(s: State, h: nat, how: Resume, g: nat)
    requires Inv(s) && LoopCanResume(s, h, how) && g < |s.loops|
    ensures g < |LoopStep(s, h, how).loops|
    ensures Recorded(s, LoopStep(s, h, how), g, 0, 0, if g == h && how == ByTimer then 1 else 0)
  {
    LoopStepBatchesOf(s, h, how, g);
    if g == h { assert LoopOk(s, g); } else { LoopStepOfOther(s, h, how, g); }
  }

  lemma StepRecorded(s: State, e: Event, g: nat)
    requires Inv(s) && Enabled(s, e) && g < |s.loops|
    ensures g < |Apply(s, e).loops|
    ensures Recorded(s, Apply(s, e), g,
                     if RunOfGeneration(s, e, g) then 1 else 0,
                     if RunOfGeneration(s, e, g) then Gone(e.result) else 0,
                     if e == LoopResume(g, ByTimer) then 1 else 0)
  {
    if e.LoopResume? {
      LoopStepRecorded(s, e.g, e.how, g);
    } else if e.ThreadCheck? || e.ThreadRun? || e.BatchDone? {
      assert BatchOk(s, e.b);
      SameOwners(s.batches, Apply(s, e).batches, g);
    } else {
      OtherStepFrame(s, e, g);
    }
  }

  lemma {:induction false} RunRecorded(s: State, es: seq<Event>, g: nat)
    requires Inv(s) && Legal(s, es) && g < |s.loops|
    ensures g < |Run(s, es).loops|
    ensures Recorded(s, Run(s, es), g, RunsSeen(s, es, g), RowsSeen(s, es, g), TimersSeen(es, g))
    decreases |es|
  {
    if es != [] {
      StepRecorded(s, es[0], g);
      StepKeepsInv(s, es[0]);
      RunRecorded(Apply(s, es[0]), es[1..], g);
    }
  }

  /** A generation yet to come has done nothing. */
  ghost predicate NotYet(s: State, g: nat) {
    g >= |s.loops| && forall b :: 0 <= b < |s.batches| ==> s.batches[b].owner != g
  }

  lemma {:induction false} NoBatches(batches: seq<Batch>, g: nat)
    requires forall b :: 0 <= b < |batches| ==> batches[b].owner != g
    ensures BatchesOf(batches, g) == 0
    decreases |batches|
  {
    if batches != [] {
      NoBatches(batches[..|batches| - 1], g);
    }
  }

  lemma StepNotYet(s: State, e: Event, g: nat)
    requires Inv(s) && Enabled(s, e) && g >= |s.loops|
    ensures !RunOfGeneration(s, e, g) && e != LoopResume(g, ByTimer)
    ensures var s' := Apply(s, e);
            g < |s'.loops| ==> s'.loops[g] == NEW_LOOP && s'.batches == s.batches
  {
    if e.ThreadRun? { assert BatchOk(s, e.b); }
    if e.LoopResume? { LoopStepFrame(s, e.g, e.how); }
  }

  /** Main result: the fields that bound the work are what they say. From import on
      `runs` counts the generation's runs, `rowsDeleted` the rows they took,
      `timeouts` its interval timers and `batchesCreated` its batches. */
  lemma {:induction false} HistoryIsExact(s: State, es: seq<Event>, g: nat)
    requires Inv(s) && Legal(s, es) && g >= |s.loops| && g < |Run(s, es).loops|
    ensures var l := Run(s, es).loops[g];
            && l.runs == RunsSeen(s, es, g) && l.rowsDeleted == RowsSeen(s, es, g)
            && l.timeouts == TimersSeen(es, g) && l.batchesCreated == BatchesOf(Run(s, es).batches, g)
    decreases |es|
  {
    var s1 := Apply(s, es[0]);
    StepNotYet(s, es[0], g);
    StepKeepsInv(s, es[0]);
    if g < |s1.loops| {
      RunRecorded(s1, es[1..], g);
      forall b | 0 <= b < |s1.batches| ensures s1.batches[b].owner != g { assert BatchOk(s, b); }
      NoBatches(s1.batches, g);
    } else {
      HistoryIsExact(s1, es[1..], g);
    }
  }

  // ---- Cancellations and rows are not invented --------------------------------

  ghost function CallerCancels(es: seq<Event>, c: nat): nat
    decreases |es|
  {
    if es == [] then 0 else (if es[0] == StopCancelRequest(c) then 1 else 0) + CallerCancels(es[1..], c)
  }

  ghost predicate CallUndisturbed(s: State, c: nat) {
    c < |s.stops| ==> !s.stops[c].callerCancelled && !s.stops[c].cancelRequested
  }

  lemma StepCallUndisturbed(s: State, e: Event, c: nat)
    requires Inv(s) && Enabled(s, e) && CallUndisturbed(s, c) && e != StopCancelRequest(c)
    ensures CallUndisturbed(Apply(s, e), c)
  {
    if e.LoopResume? {
      LoopStepFrame(s, e.g, e.how);
    }
  }

  /** A stop call whose caller is never cancelled reports no cancellation. */
  lemma {:induction false} NoCancellationInvented(s: State, es: seq<Event>, c: nat)
    requires Inv(s) && Legal(s, es) && CallUndisturbed(s, c) && CallerCancels(es, c) == 0
    ensures CallUndisturbed(Run(s, es), c)
    ensures c < |Run(s, es).stops| ==> Run(s, es).stops[c].pc != Left(ExitCancelled)
    decreases |es|
  {
    if es == [] {
      if c < |s.stops| { assert StopOk(s, c); }
    } else {
      StepKeepsInv(s, es[0]);
      StepCallUndisturbed(s, es[0], c);
      NoCancellationInvented(Apply(s, es[0]), es[1..], c);
    }
  }

  ghost function RowsExpired(es: seq<Event>): nat
    decreases |es|
  {
    if es == [] then 0 else (if es[0].RowsExpire? then es[0].rows else 0) + RowsExpired(es[1..])
  }

  ghost function RowsTaken(es: seq<Event>): nat
    decreases |es|
  {
    if es == [] then 0 else (if es[0].ThreadRun? then Gone(es[0].result) else 0) + RowsTaken(es[1..])
  }

  lemma StepRowsBalance(s: State, e: Event)
    requires Inv(s) && Enabled(s, e)
    ensures Apply(s, e).expired + RowsTaken([e]) == s.expired + RowsExpired([e])
  {
    if e.LoopResume? {
      LoopStepFrame(s, e.g, e.how);
    }
  }

  /** The rows left are those that expired less those the runs took. */
  lemma {:induction false} RowsBalance(s: State, es: seq<Event>)
    requires Inv(s) && Legal(s, es)
    ensures Run(s, es).expired + RowsTaken(es) == s.expired + RowsExpired(es)
    decreases |es|
  {
    if es != [] {
      StepRowsBalance(s, es[0]);
      StepKeepsInv(s, es[0]);
      RowsBalance(Apply(s, es[0]), es[1..]);
    }
  }
}
