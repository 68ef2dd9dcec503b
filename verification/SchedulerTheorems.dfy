// What every run of the scheduler protocol keeps.
module SchedulerTheorems {
  import opened CleanupWorker
  import opened Options
  import opened SchedulerProtocol

  // ---- Every step keeps the invariant ----------------------------------------

  lemma StartKeepsInv(s: State)
    requires Inv(s)
    ensures Inv(StartStep(s))
  {
    var s' := StartStep(s);
    forall g | 0 <= g < |s'.loops| ensures LoopOk(s', g) {
      if g < |s.loops| { assert LoopOk(s, g); }
    }
    forall b | 0 <= b < |s'.batches| ensures BatchOk(s', b) { assert BatchOk(s, b); }
    forall c | 0 <= c < |s'.stops| ensures StopOk(s', c) { assert StopOk(s, c); }
  }

  lemma StopEnterKeepsInv(s: State)
    requires Inv(s)
    ensures Inv(StopEnterStep(s))
  {
    var s' := StopEnterStep(s);
    forall g | 0 <= g < |s'.loops| ensures LoopOk(s', g) { assert LoopOk(s, g); }
    forall b | 0 <= b < |s'.batches| ensures BatchOk(s', b) { assert BatchOk(s, b); }
    forall c | 0 <= c < |s'.stops| ensures StopOk(s', c) {
      if c < |s.stops| { assert StopOk(s, c); }
    }
  }

  lemma StopResumeKeepsInv(s: State, c: nat)
    requires Inv(s) && Enabled(s, StopResume(c))
    ensures Inv(StopResumeStep(s, c))
  {
    var s' := StopResumeStep(s, c);
    forall g | 0 <= g < |s'.loops| ensures LoopOk(s', g) { assert LoopOk(s, g); }
    forall b | 0 <= b < |s'.batches| ensures BatchOk(s', b) { assert BatchOk(s, b); }
    forall d | 0 <= d < |s'.stops| ensures StopOk(s', d) { assert StopOk(s, d); }
  }

  /** What a resumption leaves alone: other loops, other batches, stop calls. */
  lemma LoopStepFrame(s: State, g: nat, how: Resume)
    requires Inv(s) && LoopCanResume(s, g, how)
    ensures var s' := LoopStep(s, g, how);
            && |s'.loops| == |s.loops| && s'.stops == s.stops
            && s'.task == s.task && s'.wakeEvent == s.wakeEvent && s'.stopEvent == s.stopEvent && s'.phase == s.phase
            && s'.expired == s.expired && s'.arrived == s.arrived && s'.deleted == s.deleted
            && (forall h :: 0 <= h < |s.loops| && h != g ==> s'.loops[h] == s.loops[h])
            && |s.batches| <= |s'.batches| <= |s.batches| + 1
            && (forall b :: 0 <= b < |s.batches| && s.loops[g].batch != Some(b) ==> s'.batches[b] == s.batches[b])
            && (forall b :: 0 <= b < |s.batches| ==> s'.batches[b].owner == s.batches[b].owner)
            && (s.loops[g].stop ==> s'.loops[g].stop)
  {
    assert LoopOk(s, g);
  }

  lemma LoopStepKeepsLoop(s: State, g: nat, how: Resume)
    requires Inv(s) && LoopCanResume(s, g, how)
    ensures LoopOk(LoopStep(s, g, how), g)
  {
    assert LoopOk(s, g);
    if s.loops[g].batch.Some? { assert BatchOk(s, s.loops[g].batch.value); }
  }

  lemma LoopStepKeepsOwnBatch(s: State, g: nat, how: Resume)
    requires Inv(s) && LoopCanResume(s, g, how) && LoopStep(s, g, how).loops[g].batch.Some?
    ensures var b := LoopStep(s, g, how).loops[g].batch.value;
            b < |LoopStep(s, g, how).batches| && BatchOk(LoopStep(s, g, how), b)
  {
    assert LoopOk(s, g);
    if s.loops[g].batch.Some? { assert BatchOk(s, s.loops[g].batch.value); }
  }

  lemma LoopStepKeepsBatch(s: State, g: nat, how: Resume, b: nat)
    requires Inv(s) && LoopCanResume(s, g, how) && b < |LoopStep(s, g, how).batches|
    ensures BatchOk(LoopStep(s, g, how), b)
  {
    LoopStepFrame(s, g, how);
    if LoopStep(s, g, how).loops[g].batch == Some(b) {
      LoopStepKeepsOwnBatch(s, g, how);
    } else {
      assert LoopOk(s, g) && b < |s.batches| && BatchOk(s, b);
    }
  }

  lemma LoopStepKeepsInv(s: State, g: nat, how: Resume)
    requires Inv(s) && LoopCanResume(s, g, how)
    ensures Inv(LoopStep(s, g, how))
  {
    var s' := LoopStep(s, g, how);
    LoopStepFrame(s, g, how);
    LoopStepKeepsLoop(s, g, how);
    assert LoopOk(s, g);
    forall h | 0 <= h < |s'.loops| ensures LoopOk(s', h) { assert LoopOk(s, h); }
    forall b | 0 <= b < |s'.batches| ensures BatchOk(s', b) { LoopStepKeepsBatch(s, g, how, b); }
    forall c | 0 <= c < |s'.stops| ensures StopOk(s', c) { assert StopOk(s, c); }
  }

  lemma CallbackKeepsInv(s: State, g: nat)
    requires Inv(s) && Enabled(s, DoneCallback(g))
    ensures Inv(CallbackStep(s, g))
  {
    var s' := CallbackStep(s, g);
    assert LoopOk(s, g);
    forall h | 0 <= h < |s'.loops| ensures LoopOk(s', h) { assert LoopOk(s, h); }
    forall b | 0 <= b < |s'.batches| ensures BatchOk(s', b) { assert BatchOk(s, b); }
    forall c | 0 <= c < |s'.stops| ensures StopOk(s', c) { assert StopOk(s, c); }
  }

  lemma WorkerKeepsInv(s: State, e: Event)
    requires Inv(s) && Enabled(s, e) && (e.ThreadCheck? || e.ThreadRun? || e.BatchDone?)
    ensures Inv(Apply(s, e))
  {
    var s' := Apply(s, e);
    assert BatchOk(s, e.b);
    forall h | 0 <= h < |s'.loops| ensures LoopOk(s', h) { assert LoopOk(s, h); }
    forall b | 0 <= b < |s'.batches| ensures BatchOk(s', b) { assert BatchOk(s, b); }
    forall c | 0 <= c < |s'.stops| ensures StopOk(s', c) { assert StopOk(s, c); }
  }

  lemma RequestKeepsInv(s: State, e: Event)
    requires Inv(s) && Enabled(s, e) && (e.StopCancelRequest? || e.LoopCancelRequest? || e.RowsExpire?)
    ensures Inv(Apply(s, e))
  {
    var s' := Apply(s, e);
    forall h | 0 <= h < |s'.loops| ensures LoopOk(s', h) { assert LoopOk(s, h); }
    forall b | 0 <= b < |s'.batches| ensures BatchOk(s', b) { assert BatchOk(s, b); }
    forall c | 0 <= c < |s'.stops| ensures StopOk(s', c) { assert StopOk(s, c); }
  }

  lemma StepKeepsInv(s: State, e: Event)
    requires Inv(s) && Enabled(s, e)
    ensures Inv(Apply(s, e))
  {
    match e
    case Start => StartKeepsInv(s);
    case StopEnter => StopEnterKeepsInv(s);
    case StopResume(c) => StopResumeKeepsInv(s, c);
    case LoopResume(g, how) => LoopStepKeepsInv(s, g, how);
    case DoneCallback(g) => CallbackKeepsInv(s, g);
    case ThreadCheck(_) => WorkerKeepsInv(s, e);
    case ThreadRun(_, _) => WorkerKeepsInv(s, e);
    case BatchDone(_) => WorkerKeepsInv(s, e);
    case StopCancelRequest(_) => RequestKeepsInv(s, e);
    case LoopCancelRequest(_) => RequestKeepsInv(s, e);
    case RowsExpire(_) => RequestKeepsInv(s, e);
  }

  lemma {:induction false} RunKeepsInv(s: State, es: seq<Event>)
    requires Inv(s) && Legal(s, es)
    ensures Inv(Run(s, es))
    decreases |es|
  {
    if es != [] {
      StepKeepsInv(s, es[0]);
      RunKeepsInv(Apply(s, es[0]), es[1..]);
    }
  }

  lemma InitInv()
    ensures Inv(INIT)
  {
  }

  /** The module has just been imported; any number of rows may have expired before. */
  ghost predicate Idle(s: State) {
    && s.task.None? && s.wakeEvent.None? && s.stopEvent.None? && s.activeBatch.None? && s.phase == Stopped
    && |s.loops| == 0 && |s.batches| == 0 && |s.stops| == 0 && s.expired == s.arrived && s.deleted == 0
  }

  lemma IdleInv(s: State, es: seq<Event>)
    requires Idle(s) && Legal(s, es)
    ensures Inv(Run(s, es))
  {
    RunKeepsInv(s, es);
  }

  /** The states of this scheduler: whatever a legal run from the import of the
      module reaches. */
  ghost predicate Reachable(s: State) {
    exists s0, es :: Idle(s0) && Legal(s0, es) && Run(s0, es) == s
  }

  lemma ReachableInv(s: State)
    requires Reachable(s)
    ensures Inv(s)
  {
    var s0, es :| Idle(s0) && Legal(s0, es) && Run(s0, es) == s;
    IdleInv(s0, es);
  }

  lemma {:induction false} Append(s: State, es: seq<Event>, e: Event)
    requires Legal(s, es) && Enabled(Run(s, es), e)
    ensures Legal(s, es + [e]) && Run(s, es + [e]) == Apply(Run(s, es), e)
    decreases |es|
  {
    if es == [] {
      assert es + [e] == [e] && [e][1..] == [];
      assert Legal(Apply(s, e), []);
    } else {
      Append(Apply(s, es[0]), es[1..], e);
      assert (es + [e])[1..] == es[1..] + [e];
    }
  }

  lemma ReachableStep(s: State, e: Event)
    requires Reachable(s) && Enabled(s, e)
    ensures Reachable(Apply(s, e))
  {
    var s0, es :| Idle(s0) && Legal(s0, es) && Run(s0, es) == s;
    Append(s0, es, e);
  }

  // ---- What steps leave alone -------------------------------------------------

  lemma LoopStepOfOther(s: State, h: nat, how: Resume, g: nat)
    requires Inv(s) && LoopCanResume(s, h, how) && g < |s.loops| && g != h
    ensures LoopStep(s, h, how).loops[g] == s.loops[g]
    ensures var s' := LoopStep(s, h, how);
            s.loops[g].batch.Some? ==>
              && s.loops[g].batch.value < |s.batches| <= |s'.batches|
              && s'.batches[s.loops[g].batch.value] == s.batches[s.loops[g].batch.value]
  {
    LoopStepFrame(s, h, how);
    assert LoopOk(s, g) && LoopOk(s, h);
  }

  /** Steps that neither resume a loop nor belong to a worker leave the batches
      alone, and of a loop change no more than its flags. */
  lemma OtherStepFrame(s: State, e: Event, g: nat)
    requires Inv(s) && Enabled(s, e) && g < |s.loops|
    requires !e.LoopResume? && !e.ThreadCheck? && !e.ThreadRun? && !e.BatchDone?
    ensures var s' := Apply(s, e);
            && s'.batches == s.batches && g < |s'.loops|
            && s'.loops[g] == s.loops[g].(stop := s'.loops[g].stop, wake := s'.loops[g].wake,
                 cancelRequested := s'.loops[g].cancelRequested, callbackPending := s'.loops[g].callbackPending)
            && (s.loops[g].stop ==> s'.loops[g].stop)
            && (s'.loops[g].callbackPending <==> s.loops[g].callbackPending && e != DoneCallback(g))
  {
    match e
    case Start =>
    case StopEnter =>
    case StopResume(_) =>
    case StopCancelRequest(_) =>
    case LoopCancelRequest(_) =>
    case DoneCallback(_) =>
    case RowsExpire(_) =>
  }

  // ---- At most one batch in flight -------------------------------------------

  /** No loop task is done while its batch is still running. */
  ghost predicate Drained(s: State) {
    forall b: nat :: InFlight(s, b) && s.batches[b].owner < |s.loops| ==> !s.loops[s.batches[b].owner].pc.Ended?
  }

  ghost predicate SingleFlight(s: State) {
    forall b: nat, c: nat :: InFlight(s, b) && InFlight(s, c) ==> b == c
  }

  /** A third CancelledError for one batch: the loop is at line 128 and the batch
      it waits for is not done. */
  ghost predicate ThirdCancel(s: State, e: Event) {
    && Enabled(s, e) && e.LoopResume? && e.how.ByCancel?
    && s.loops[e.g].pc.FinalDrain? && !s.batches[s.loops[e.g].batch.value].done
  }

  ghost predicate NeverThirdCancel(s: State, es: seq<Event>)
    requires Legal(s, es)
    decreases |es|
  {
    es == [] || (!ThirdCancel(s, es[0]) && NeverThirdCancel(Apply(s, es[0]), es[1..]))
  }

  ghost predicate AlwaysDrained(s: State, es: seq<Event>)
    requires Legal(s, es)
    decreases |es|
  {
    Drained(s) && (es == [] || AlwaysDrained(Apply(s, es[0]), es[1..]))
  }

  lemma DrainedMeansSingleFlight(s: State)
    requires Inv(s) && Drained(s)
    ensures SingleFlight(s)
  {
    forall b: nat, c: nat | InFlight(s, b) && InFlight(s, c) ensures b == c {
      assert BatchOk(s, b) && BatchOk(s, c);
      assert LoopOk(s, s.batches[b].owner) && LoopOk(s, s.batches[c].owner);
    }
  }

  lemma LoopStepDrained(s: State, g: nat, how: Resume)
    requires Inv(s) && Drained(s) && LoopCanResume(s, g, how)
    ensures Drained(LoopStep(s, g, how)) <==> !ThirdCancel(s, LoopResume(g, how))
  {
    var s' := LoopStep(s, g, how);
    LoopStepFrame(s, g, how);
    assert LoopOk(s, g);
    if ThirdCancel(s, LoopResume(g, how)) {
      var b := s.loops[g].batch.value;
      assert InFlight(s', b) && s'.batches[b].owner == g && s'.loops[g].pc.Ended?;
    } else {
      forall b: nat | InFlight(s', b) && s'.batches[b].owner < |s'.loops|
        ensures !s'.loops[s'.batches[b].owner].pc.Ended?
      {
        if b < |s.batches| {
          assert BatchOk(s, b);
          assert InFlight(s, b);
        }
      }
    }
  }

  lemma StepDrained(s: State, e: Event)
    requires Inv(s) && Drained(s) && Enabled(s, e)
    ensures Drained(Apply(s, e)) <==> !ThirdCancel(s, e)
  {
    var s' := Apply(s, e);
    if e.LoopResume? {
      LoopStepDrained(s, e.g, e.how);
    } else {
      forall b: nat | InFlight(s', b) && s'.batches[b].owner < |s'.loops|
        ensures !s'.loops[s'.batches[b].owner].pc.Ended?
      {
        assert BatchOk(s, b) && InFlight(s, b);
        assert LoopOk(s, s.batches[b].owner);
      }
    }
  }

  /** Main result: in every run of starts, stops, cancelled callers, timers and
      failing batches, a loop task never ends before its batch, exactly when no
      loop is cancelled a third time while it waits for one batch. */
  lemma {:induction false} DrainedUnlessCancelledThrice(s: State, es: seq<Event>)
    requires Inv(s) && Drained(s) && Legal(s, es)
    ensures AlwaysDrained(s, es) <==> NeverThirdCancel(s, es)
    decreases |es|
  {
    if es != [] {
      StepKeepsInv(s, es[0]);
      StepDrained(s, es[0]);
      if !ThirdCancel(s, es[0]) {
        DrainedUnlessCancelledThrice(Apply(s, es[0]), es[1..]);
      }
    }
  }

  /** And then at most one batch is in flight, across all generations, wherever
      the run has got to. (Every state of a run ends a run.) */
  lemma {:induction false} OneBatchInFlight(s: State, es: seq<Event>)
    requires Inv(s) && Drained(s) && Legal(s, es) && NeverThirdCancel(s, es)
    ensures SingleFlight(Run(s, es)) && Drained(Run(s, es))
    decreases |es|
  {
    if es == [] {
      DrainedMeansSingleFlight(s);
    } else {
      StepKeepsInv(s, es[0]);
      StepDrained(s, es[0]);
      OneBatchInFlight(Apply(s, es[0]), es[1..]);
    }
  }

  // A condition on the callers alone: how often task.cancel() is called.

  /** How often task.cancel() is called on a generation's loop task. */
  ghost function CancelRequests(es: seq<Event>, g: nat): nat
    decreases |es|
  {
    if es == [] then 0 else (if es[0] == LoopCancelRequest(g) then 1 else 0) + CancelRequests(es[1..], g)
  }

  /** The cancellations a loop has taken for its batch, or has waiting. */
  ghost function Charge(s: State, g: nat): nat {
    if g >= |s.loops| then 0 else
    var l := s.loops[g];
    (if l.cancelRequested then 1 else 0)
    + (if l.batch.Some? && l.batch.value < |s.batches| then s.batches[l.batch.value].cancels else 0)
  }

  /** With those still to come they stay below three for every loop. */
  ghost predicate Charged(s: State, es: seq<Event>) {
    forall g: nat :: Charge(s, g) + CancelRequests(es, g) <= 2
  }

  lemma ThirdCancelIsCharged(s: State, e: Event)
    requires Inv(s)
    ensures ThirdCancel(s, e) ==> Charge(s, e.g) == 3
  {
    if ThirdCancel(s, e) {
      assert LoopOk(s, e.g) && BatchOk(s, s.loops[e.g].batch.value);
    }
  }

  lemma LoopStepCharge(s: State, h: nat, how: Resume, g: nat)
    requires Inv(s) && LoopCanResume(s, h, how)
    ensures Charge(LoopStep(s, h, how), g) <= Charge(s, g)
  {
    LoopStepFrame(s, h, how);
    if g == h {
      assert LoopOk(s, g);
    } else if g < |s.loops| {
      LoopStepOfOther(s, h, how, g);
    }
  }

  lemma WorkerStepCharge(s: State, e: Event, g: nat)
    requires Inv(s) && Enabled(s, e) && (e.ThreadCheck? || e.ThreadRun? || e.BatchDone?)
    ensures Charge(Apply(s, e), g) <= Charge(s, g)
  {
    assert BatchOk(s, e.b);
    if g < |s.loops| { assert LoopOk(s, g); }
  }

  lemma OtherStepCharge(s: State, e: Event, g: nat)
    requires Inv(s) && Enabled(s, e)
    requires !e.LoopResume? && !e.ThreadCheck? && !e.ThreadRun? && !e.BatchDone?
    ensures Charge(Apply(s, e), g) <= Charge(s, g) + (if e == LoopCancelRequest(g) then 1 else 0)
  {
    if g < |s.loops| { OtherStepFrame(s, e, g); }
  }

  lemma StepCharge(s: State, e: Event, g: nat)
    requires Inv(s) && Enabled(s, e)
    ensures Charge(Apply(s, e), g) <= Charge(s, g) + (if e == LoopCancelRequest(g) then 1 else 0)
  {
    if e.LoopResume? {
      LoopStepCharge(s, e.g, e.how, g);
    } else if e.ThreadCheck? || e.ThreadRun? || e.BatchDone? {
      WorkerStepCharge(s, e, g);
    } else {
      OtherStepCharge(s, e, g);
    }
  }

  lemma {:induction false} FewCancelsAreHarmless(s: State, es: seq<Event>)
    requires Inv(s) && Legal(s, es) && Charged(s, es)
    ensures NeverThirdCancel(s, es)
    decreases |es|
  {
    if es != [] {
      var s' := Apply(s, es[0]);
      ThirdCancelIsCharged(s, es[0]);
      StepKeepsInv(s, es[0]);
      forall g: nat ensures Charge(s', g) + CancelRequests(es[1..], g) <= 2 {
        StepCharge(s, es[0], g);
        assert Charge(s, g) + CancelRequests(es, g) <= 2;
      }
      FewCancelsAreHarmless(s', es[1..]);
    }
  }

  lemma IdleIsDrained(s: State)
    requires Idle(s)
    ensures Inv(s) && Drained(s) && forall g: nat :: Charge(s, g) == 0
  {
  }

  /** From the import of the module on: one batch at a time, as long as no single
      loop task is cancelled more than twice, however many generations there are.
      (The module itself never cancels its task; and a loop that has been
      cancelled starts no further batch.) */
  lemma OneBatchAtATime(s: State, es: seq<Event>)
    requires Idle(s) && Legal(s, es) && forall g: nat :: CancelRequests(es, g) <= 2
    ensures SingleFlight(Run(s, es)) && Drained(Run(s, es))
  {
    IdleIsDrained(s);
    FewCancelsAreHarmless(s, es);
    OneBatchInFlight(s, es);
  }

  // Three cancellations during one batch do break it.

  lemma Prepend(s: State, e: Event, es: seq<Event>)
    requires Enabled(s, e) && Legal(Apply(s, e), es)
    ensures Legal(s, [e] + es) && Run(s, [e] + es) == Run(Apply(s, e), es)
  {
    assert ([e] + es)[1..] == es;
  }

  lemma RunOfTwo(s: State, e1: Event, e2: Event)
    requires Enabled(s, e1) && Enabled(Apply(s, e1), e2)
    ensures Legal(s, [e1] + [e2]) && Run(s, [e1] + [e2]) == Apply(Apply(s, e1), e2)
  {
    assert Legal(s, []);
    Append(s, [], e1);
    assert [] + [e1] == [e1];
    Append(s, [e1], e2);
  }

  /** A free scheduler beside a batch that still runs: restarted, it starts another. */
  lemma RestartOverlaps(s: State, b: nat)
    requires Inv(s) && s.task.None? && InFlight(s, b)
    ensures var es := [Start] + [LoopResume(|s.loops|, ByCompletion)];
            Legal(s, es) && !SingleFlight(Run(s, es))
  {
    var g := |s.loops|;
    var s1 := Apply(s, Start);
    assert s1.loops[g] == NEW_LOOP;
    var s2 := Apply(s1, LoopResume(g, ByCompletion));
    assert InFlight(s2, b) && InFlight(s2, |s.batches|) && b != |s.batches|;
    RunOfTwo(s, Start, LoopResume(g, ByCompletion));
  }

  /** After any third cancellation a batch outlives its task: ownership is then
      released and a restarted scheduler runs a second batch beside the first. */
  lemma ThirdCancelOverlapsBatches(s: State, e: Event)
    requires Inv(s) && ThirdCancel(s, e)
    ensures var es := [e] + ([DoneCallback(e.g)] + ([Start] + [LoopResume(|s.loops|, ByCompletion)]));
            Legal(s, es) && !SingleFlight(Run(s, es))
  {
    var b := s.loops[e.g].batch.value;
    assert LoopOk(s, e.g) && BatchOk(s, b);
    LoopStepFrame(s, e.g, ByCancel);
    var s1 := Apply(s, e);
    StepKeepsInv(s, e);
    StepKeepsInv(s1, DoneCallback(e.g));
    var s2 := Apply(s1, DoneCallback(e.g));
    var restart := [Start] + [LoopResume(|s.loops|, ByCompletion)];
    RestartOverlaps(s2, b);
    Prepend(s1, DoneCallback(e.g), restart);
    Prepend(s, e, [DoneCallback(e.g)] + restart);
  }

  lemma Then(s: State, e: Event) returns (s': State)
    requires Reachable(s) && Enabled(s, e)
    ensures Reachable(s') && s' == Apply(s, e)
  {
    ReachableStep(s, e);
    s' := Apply(s, e);
  }

  lemma FirstBatchBegun() returns (s: State)
    ensures Reachable(s) && |s.loops| == 1 && s.loops[0].pc == AwaitBatch
    ensures InFlight(s, 0) && s.loops[0].batch == Some(0)
  {
    assert Legal(INIT, []);
    s := Then(INIT, Start);
    s := Then(s, LoopResume(0, ByCompletion));
  }

  lemma CancelOnce(s: State, next: Pc, b: nat) returns (s': State)
    requires Reachable(s) && |s.loops| == 1 && InFlight(s, b) && s.loops[0].batch == Some(b)
    requires (s.loops[0].pc == AwaitBatch && next == DrainBatch) || (s.loops[0].pc == DrainBatch && next == FinalDrain)
    ensures Reachable(s') && |s'.loops| == 1 && InFlight(s', b) && s'.loops[0].batch == Some(b)
    ensures s'.loops[0].pc == next
  {
    s' := Then(s, LoopCancelRequest(0));
    s' := Then(s', LoopResume(0, ByCancel));
  }

  /** And a third cancellation can happen: start, let the batch begin, cancel the
      task three times. */
  lemma ThirdCancelIsReachable() returns (s: State)
    ensures Reachable(s) && ThirdCancel(s, LoopResume(0, ByCancel))
  {
    s := FirstBatchBegun();
    s := CancelOnce(s, DrainBatch, 0);
    s := CancelOnce(s, FinalDrain, 0);
    s := Then(s, LoopCancelRequest(0));
  }

  // ---- stop waits for its task -----------------------------------------------

  /** When the generation's task has ended, none of its batches is still running. */
  ghost predicate GenerationDrained(s: State, g: nat) {
    g < |s.loops| && s.loops[g].pc.Ended? ==> forall b: nat :: InFlight(s, b) ==> s.batches[b].owner != g
  }

  lemma LoopStepDrainsGeneration(s: State, h: nat, how: Resume, g: nat)
    requires Inv(s) && LoopCanResume(s, h, how) && GenerationDrained(s, g)
    requires !(h == g && ThirdCancel(s, LoopResume(h, how)))
    ensures GenerationDrained(LoopStep(s, h, how), g)
  {
    var s' := LoopStep(s, h, how);
    LoopStepFrame(s, h, how);
    assert LoopOk(s, h);
    forall b: nat | g < |s'.loops| && s'.loops[g].pc.Ended? && InFlight(s', b) ensures s'.batches[b].owner != g {
      if b < |s.batches| { assert BatchOk(s, b) && InFlight(s, b); }
    }
  }

  lemma StepDrainsGeneration(s: State, e: Event, g: nat)
    requires Inv(s) && Enabled(s, e) && GenerationDrained(s, g)
    requires !(ThirdCancel(s, e) && e.g == g)
    ensures GenerationDrained(Apply(s, e), g)
  {
    var s' := Apply(s, e);
    if e.LoopResume? {
      LoopStepDrainsGeneration(s, e.g, e.how, g);
    } else {
      forall b: nat | g < |s'.loops| && s'.loops[g].pc.Ended? && InFlight(s', b) ensures s'.batches[b].owner != g {
        assert BatchOk(s, b) && InFlight(s, b);
      }
    }
  }

  lemma {:induction false} GenerationDrains(s: State, es: seq<Event>, g: nat)
    requires Inv(s) && Legal(s, es) && GenerationDrained(s, g) && Charge(s, g) + CancelRequests(es, g) <= 2
    ensures GenerationDrained(Run(s, es), g)
    decreases |es|
  {
    if es != [] {
      StepKeepsInv(s, es[0]);
      ThirdCancelIsCharged(s, es[0]);
      StepDrainsGeneration(s, es[0], g);
      StepCharge(s, es[0], g);
      GenerationDrains(Apply(s, es[0]), es[1..], g);
    }
  }

  /** A stop call that has left, by return or exception, captured no task or one
      that is done; and it left the way the task and its caller's cancellations
      prescribe. Nothing of that generation is still running then, if its own task
      was not cancelled more than twice. */
  lemma StopLeavesAfterDrain(s0: State, es: seq<Event>, c: nat)
    requires Idle(s0) && Legal(s0, es) && c < |Run(s0, es).stops| && Run(s0, es).stops[c].pc.Left?
    ensures var s := Run(s0, es);
            var call := s.stops[c];
            && (call.captured.None? ==> call.pc.how == ExitNormal)
            && (call.captured.Some? ==>
                  var g := call.captured.value;
                  && g < |s.loops| && s.loops[g].pc.Ended?
                  && call.pc.how == StopExitOf(s.loops[g].pc.outcome, call.callerCancelled)
                  && (CancelRequests(es, g) <= 2 ==> forall b: nat :: InFlight(s, b) ==> s.batches[b].owner != g))
  {
    IdleInv(s0, es);
    assert StopOk(Run(s0, es), c);
    var captured := Run(s0, es).stops[c].captured;
    if captured.Some? && CancelRequests(es, captured.value) <= 2 {
      IdleIsDrained(s0);
      GenerationDrains(s0, es, captured.value);
    }
  }

  /** The caller's cancellation is waiting or remembered - or the task it waits for
      has itself been cancelled. */
  ghost predicate CancellationOwed(s: State, c: nat) {
    && c < |s.stops| && s.stops[c].captured.Some? && s.stops[c].captured.value < |s.loops|
    && (|| s.stops[c].callerCancelled
        || (s.stops[c].cancelRequested && s.stops[c].pc.AwaitTask?)
        || s.loops[s.stops[c].captured.value].pc == Ended(Cancelled))
  }

  lemma StepKeepsOwed(s: State, e: Event, c: nat)
    requires Inv(s) && Enabled(s, e) && CancellationOwed(s, c)
    ensures CancellationOwed(Apply(s, e), c) && Apply(s, e).stops[c].captured == s.stops[c].captured
  {
    if e.LoopResume? {
      LoopStepFrame(s, e.g, e.how);
    }
  }

  /** However often its caller is cancelled and however the run goes on, a stop call
      that has been cancelled reports it when it leaves, unless the task's exception
      is raised instead - or the task was itself cancelled, and the two
      CancelledErrors cannot be told apart. */
  lemma {:induction false} CancellationIsReported(s: State, es: seq<Event>, c: nat)
    requires Inv(s) && Legal(s, es) && CancellationOwed(s, c)
    ensures var s' := Run(s, es);
            && c < |s'.stops| && s'.stops[c].captured == s.stops[c].captured
            && (s'.stops[c].pc.Left? ==>
                  && s'.stops[c].captured.value < |s'.loops|
                  && match s'.loops[s'.stops[c].captured.value].pc
                     case Ended(Returned) => s'.stops[c].pc.how == ExitCancelled
                     case Ended(Raised) => s'.stops[c].pc.how == ExitTaskError
                     case Ended(Cancelled) =>
                       s'.stops[c].pc.how == (if s'.stops[c].callerCancelled then ExitCancelled else ExitNormal)
                     case _ => false)
    decreases |es|
  {
    if es == [] {
      assert StopOk(s, c);
    } else {
      StepKeepsOwed(s, es[0], c);
      StepKeepsInv(s, es[0]);
      CancellationIsReported(Apply(s, es[0]), es[1..], c);
    }
  }

  lemma StepKeepsRemembered(s: State, e: Event, c: nat)
    requires Inv(s) && Enabled(s, e) && c < |s.stops| && s.stops[c].callerCancelled
    ensures c < |Apply(s, e).stops| && Apply(s, e).stops[c].callerCancelled
    ensures Apply(s, e).stops[c].captured == s.stops[c].captured
  {
    if e.LoopResume? {
      LoopStepFrame(s, e.g, e.how);
    }
  }

  /** Once recorded, a cancellation is re-raised in the end whatever happens, unless
      the task's exception is raised instead. */
  lemma {:induction false} RememberedCancellationIsReRaised(s: State, es: seq<Event>, c: nat)
    requires Inv(s) && Legal(s, es)
    requires c < |s.stops| && s.stops[c].callerCancelled && s.stops[c].captured.Some?
    ensures var s' := Run(s, es);
            && c < |s'.stops| && s'.stops[c].captured == s.stops[c].captured
            && (s'.stops[c].pc.Left? ==>
                  && s'.stops[c].captured.value < |s'.loops|
                  && var outcome := s'.loops[s'.stops[c].captured.value].pc;
                  s'.stops[c].pc.how == (if outcome == Ended(Raised) then ExitTaskError else ExitCancelled))
    decreases |es|
  {
    if es == [] {
      assert StopOk(s, c);
    } else {
      StepKeepsRemembered(s, es[0], c);
      StepKeepsInv(s, es[0]);
      RememberedCancellationIsReRaised(Apply(s, es[0]), es[1..], c);
    }
  }

  // ---- Ownership -------------------------------------------------------------

  /** In every reachable state the three handles are held together, exactly while
      the state is not "stopped"; at most one loop task is unfinished, and it is
      the owned one. */
  lemma OwnershipInvariant(s: State)
    requires Reachable(s)
    ensures s.task.None? <==> s.phase == Stopped
    ensures s.wakeEvent.None? <==> s.phase == Stopped
    ensures s.stopEvent.None? <==> s.phase == Stopped
    ensures s.wakeEvent == s.task && s.stopEvent == s.task
    ensures forall g: nat :: Live(s, g) ==> s.task == Some(g)
    ensures forall g: nat, h: nat :: Live(s, g) && Live(s, h) ==> g == h
  {
    ReachableInv(s);
    forall g: nat | Live(s, g) ensures s.task == Some(g) { assert LoopOk(s, g); }
  }

  /** The done-callback of a task that has been superseded changes nothing but
      the fact that it was still to come. */
  lemma LateCallbackChangesNothing(s: State, g: nat)
    requires Reachable(s) && Enabled(s, DoneCallback(g)) && g + 1 < |s.loops|
    ensures Apply(s, DoneCallback(g)) == s.(loops := s.loops[g := s.loops[g].(callbackPending := false)])
  {
    ReachableInv(s);
  }

  // ---- A stopped generation winds down ---------------------------------------

  function LoopRank(l: LoopTask): nat {
    match l.pc
    case Unstarted => 5
    case AwaitWake => 5
    case AwaitBatch => 4
    case DrainBatch => 3
    case FinalDrain => 2
    case Ended(_) => if l.callbackPending then 1 else 0
  }

  ghost predicate StopSet(s: State, g: nat) { g < |s.loops| && s.loops[g].stop }

  /** Whether the generation's worker is past its check and inside a run. */
  ghost function RunsUnderWay(s: State, g: nat): nat
    requires g < |s.loops|
  {
    var l := s.loops[g];
    if l.batch.Some? && l.batch.value < |s.batches| && s.batches[l.batch.value].worker.InRun? then 1 else 0
  }

  lemma LoopStepAfterStop(s: State, g: nat, how: Resume)
    requires Inv(s) && LoopCanResume(s, g, how) && s.loops[g].stop
    ensures var l, l' := s.loops[g], LoopStep(s, g, how).loops[g];
            && l'.stop && l'.batch == l.batch && l'.batchesCreated == l.batchesCreated
            && l'.runs == l.runs && l'.rowsDeleted == l.rowsDeleted && LoopRank(l') < LoopRank(l)
    ensures |LoopStep(s, g, how).batches| == |s.batches|
    ensures forall b :: 0 <= b < |s.batches| ==>
              && LoopStep(s, g, how).batches[b].worker == s.batches[b].worker
              && LoopStep(s, g, how).batches[b].done == s.batches[b].done
  {
    assert LoopOk(s, g);
  }

  /** Nothing of what bounds a generation's work has grown from `s` to `s'`. */
  ghost predicate NoMoreWork(s: State, s': State, g: nat) {
    && StopSet(s, g) && StopSet(s', g)
    && s'.loops[g].batchesCreated == s.loops[g].batchesCreated
    && s'.loops[g].runs + RunsUnderWay(s', g) <= s.loops[g].runs + RunsUnderWay(s, g)
    && s'.loops[g].rowsDeleted + BATCH_LIMIT * RunsUnderWay(s', g)
       <= s.loops[g].rowsDeleted + BATCH_LIMIT * RunsUnderWay(s, g)
  }

  lemma OwnStepBound(s: State, g: nat, how: Resume)
    requires Inv(s) && LoopCanResume(s, g, how) && StopSet(s, g)
    ensures NoMoreWork(s, LoopStep(s, g, how), g)
  {
    assert LoopOk(s, g);
    LoopStepAfterStop(s, g, how);
  }

  lemma LoopStepBound(s: State, h: nat, how: Resume, g: nat)
    requires Inv(s) && LoopCanResume(s, h, how) && StopSet(s, g)
    ensures NoMoreWork(s, LoopStep(s, h, how), g)
  {
    if g == h {
      OwnStepBound(s, g, how);
    } else {
      assert LoopOk(s, g);
      LoopStepOfOther(s, h, how, g);
    }
  }

  lemma WorkerStepBound(s: State, e: Event, g: nat)
    requires Inv(s) && Enabled(s, e) && StopSet(s, g) && (e.ThreadCheck? || e.ThreadRun? || e.BatchDone?)
    ensures NoMoreWork(s, Apply(s, e), g)
  {
    assert BatchOk(s, e.b) && LoopOk(s, g);
  }

  lemma OtherStepBound(s: State, e: Event, g: nat)
    requires Inv(s) && Enabled(s, e) && StopSet(s, g)
    requires !e.LoopResume? && !e.ThreadCheck? && !e.ThreadRun? && !e.BatchDone?
    ensures NoMoreWork(s, Apply(s, e), g)
  {
    OtherStepFrame(s, e, g);
  }

  lemma StopStepBound(s: State, e: Event, g: nat)
    requires Inv(s) && Enabled(s, e) && StopSet(s, g)
    ensures NoMoreWork(s, Apply(s, e), g)
  {
    if e.LoopResume? {
      LoopStepBound(s, e.g, e.how, g);
    } else if e.ThreadCheck? || e.ThreadRun? || e.BatchDone? {
      WorkerStepBound(s, e, g);
    } else {
      OtherStepBound(s, e, g);
    }
  }

  lemma NoMoreWorkTransitive(s: State, s': State, s'': State, g: nat)
    requires NoMoreWork(s, s', g) && NoMoreWork(s', s'', g)
    ensures NoMoreWork(s, s'', g)
  {
  }

  lemma {:induction false} StopBound(s: State, es: seq<Event>, g: nat)
    requires Inv(s) && Legal(s, es) && StopSet(s, g)
    ensures NoMoreWork(s, Run(s, es), g)
    decreases |es|
  {
    if es != [] {
      StopStepBound(s, es[0], g);
      StepKeepsInv(s, es[0]);
      StopBound(Apply(s, es[0]), es[1..], g);
      NoMoreWorkTransitive(s, Apply(s, es[0]), Run(s, es), g);
    }
  }

  /** Main result: from the moment a generation's stop event is set, whatever
      happens, it starts no further batch, at most one more run completes, and at
      most 1000 more rows go. */
  lemma StopBoundsRemainingWork(s: State, after: seq<Event>, g: nat)
    requires Reachable(s) && Legal(s, after) && StopSet(s, g)
    ensures var s' := Run(s, after);
            && StopSet(s', g)
            && s'.loops[g].batchesCreated == s.loops[g].batchesCreated
            && s'.loops[g].runs <= s.loops[g].runs + 1
            && s'.loops[g].rowsDeleted <= s.loops[g].rowsDeleted + 1000
  {
    ReachableInv(s);
    StopBound(s, after, g);
  }

  /** The loop never spins: the wake event is set exactly when the stop event is,
      so every batch but the first waited for an interval timer. */
  lemma LoopNeverSpins(s: State, g: nat)
    requires Reachable(s) && g < |s.loops|
    ensures s.loops[g].wake == s.loops[g].stop
    ensures s.loops[g].batchesCreated <= 1 + s.loops[g].timeouts
    ensures Live(s, g)
        ==> s.loops[g].batchesCreated == s.loops[g].timeouts + (if s.loops[g].pc.Unstarted? then 0 else 1)
    ensures s.loops[g].pc.AwaitWake? && Enabled(s, LoopResume(g, ByCompletion))
        ==> Apply(s, LoopResume(g, ByCompletion)).loops[g].pc == Ended(Returned)
  {
    ReachableInv(s);
    assert LoopOk(s, g);
  }

  // ---- Draining terminates ---------------------------------------------------

  function WorkerRank(b: Batch): nat {
    if b.done then 0 else match b.worker case InRun(_, _) => 3 case AtCheck(_, _) => 2 case Finished(_) => 1
  }

  ghost function Rank(s: State, g: nat): (r: nat)
    requires g < |s.loops|
    ensures r <= 8
  {
    var l := s.loops[g];
    LoopRank(l) + (if l.batch.Some? && l.batch.value < |s.batches| then WorkerRank(s.batches[l.batch.value]) else 0)
  }

  /** The steps a generation takes by itself: its loop, its callback, its worker. */
  ghost predicate OwnStep(s: State, e: Event, g: nat)
    requires g < |s.loops|
  {
    match e
    case LoopResume(h, _) => h == g
    case DoneCallback(h) => h == g
    case ThreadCheck(b) => s.loops[g].batch == Some(b)
    case ThreadRun(b, _) => s.loops[g].batch == Some(b)
    case BatchDone(b) => s.loops[g].batch == Some(b)
    case _ => false
  }

  /** A step of the generation's own takes its rank down; no other step takes it up. */
  ghost predicate RankGoesDown(s: State, s': State, g: nat, own: bool) {
    && StopSet(s, g) && StopSet(s', g)
    && if own then Rank(s', g) < Rank(s, g) else Rank(s', g) <= Rank(s, g)
  }

  lemma OwnRankFalls(s: State, g: nat, how: Resume)
    requires Inv(s) && LoopCanResume(s, g, how) && StopSet(s, g)
    ensures RankGoesDown(s, LoopStep(s, g, how), g, true)
  {
    assert LoopOk(s, g);
    LoopStepAfterStop(s, g, how);
  }

  lemma RankKeptByOthers(s: State, h: nat, how: Resume, g: nat)
    requires Inv(s) && LoopCanResume(s, h, how) && StopSet(s, g) && g != h
    ensures RankGoesDown(s, LoopStep(s, h, how), g, false)
  {
    assert LoopOk(s, g);
    LoopStepOfOther(s, h, how, g);
  }

  lemma WorkerRankFalls(s: State, e: Event, g: nat)
    requires Inv(s) && Enabled(s, e) && StopSet(s, g) && (e.ThreadCheck? || e.ThreadRun? || e.BatchDone?)
    ensures RankGoesDown(s, Apply(s, e), g, s.loops[g].batch == Some(e.b))
  {
    assert BatchOk(s, e.b) && LoopOk(s, g);
  }

  lemma OtherRankFalls(s: State, e: Event, g: nat)
    requires Inv(s) && Enabled(s, e) && StopSet(s, g)
    requires !e.LoopResume? && !e.ThreadCheck? && !e.ThreadRun? && !e.BatchDone?
    ensures RankGoesDown(s, Apply(s, e), g, e == DoneCallback(g))
  {
    OtherStepFrame(s, e, g);
    assert LoopOk(s, g);
  }

  lemma RankFalls(s: State, e: Event, g: nat)
    requires Inv(s) && Enabled(s, e) && StopSet(s, g)
    ensures RankGoesDown(s, Apply(s, e), g, OwnStep(s, e, g))
  {
    if e.LoopResume? {
      if e.g == g { OwnRankFalls(s, g, e.how); } else { RankKeptByOthers(s, e.g, e.how, g); }
    } else if e.ThreadCheck? || e.ThreadRun? || e.BatchDone? {
      WorkerRankFalls(s, e, g);
    } else {
      OtherRankFalls(s, e, g);
    }
  }

  ghost function OwnSteps(s: State, es: seq<Event>, g: nat): nat
    requires Legal(s, es) && Inv(s) && StopSet(s, g)
    decreases |es|
  {
    if es == [] then 0 else
    StepKeepsInv(s, es[0]);
    RankFalls(s, es[0], g);
    (if OwnStep(s, es[0], g) then 1 else 0) + OwnSteps(Apply(s, es[0]), es[1..], g)
  }

  lemma {:induction false} OwnStepsBounded(s: State, es: seq<Event>, g: nat)
    requires Inv(s) && Legal(s, es) && StopSet(s, g)
    ensures StopSet(Run(s, es), g) && OwnSteps(s, es, g) + Rank(Run(s, es), g) <= Rank(s, g)
    decreases |es|
  {
    if es != [] {
      StepKeepsInv(s, es[0]);
      RankFalls(s, es[0], g);
      OwnStepsBounded(Apply(s, es[0]), es[1..], g);
    }
  }

  /** Until the rank is used up some step of the generation can be taken: the
      drain has no deadlock. */
  lemma DrainHasNextStep(s: State, g: nat) returns (e: Event)
    requires Inv(s) && StopSet(s, g) && Rank(s, g) > 0
    ensures Enabled(s, e) && OwnStep(s, e, g)
  {
    var l := s.loops[g];
    assert LoopOk(s, g);
    if Draining(l.pc) || l.pc.Ended? {
      if l.batch.Some? && !s.batches[l.batch.value].done {
        var b := l.batch.value;
        assert BatchOk(s, b);
        match s.batches[b].worker
        case AtCheck(_, _) => return ThreadCheck(b);
        case InRun(_, _) => return ThreadRun(b, RunFailed(0));
        case Finished(_) => return BatchDone(b);
      }
    }
    if l.callbackPending { return DoneCallback(g); }
    if l.cancelRequested { return LoopResume(g, ByCancel); }
    return LoopResume(g, ByCompletion);
  }

  /** Task done, callback fired, ownership given up, no batch left running. */
  ghost predicate WoundDown(s: State, g: nat)
    requires g < |s.loops|
  {
    && s.loops[g].pc.Ended? && !s.loops[g].callbackPending && s.task != Some(g)
    && forall b: nat :: InFlight(s, b) ==> s.batches[b].owner != g
  }

  ghost predicate AwaitsTask(s: State, c: nat, g: nat) {
    c < |s.stops| && s.stops[c].pc.AwaitTask? && s.stops[c].captured == Some(g)
  }

  /** The stop call can be resumed, and then it returns or raises. */
  ghost predicate CanLeave(s: State, c: nat) {
    Enabled(s, StopResume(c)) && Apply(s, StopResume(c)).stops[c].pc.Left?
  }

  lemma WaitingCallCanLeave(s: State, c: nat, g: nat)
    requires Inv(s) && AwaitsTask(s, c, g) && g < |s.loops| && s.loops[g].pc.Ended?
    ensures CanLeave(s, c)
  {
  }

  lemma RankZeroIsWoundDown(s: State, g: nat)
    requires Inv(s) && StopSet(s, g) && Rank(s, g) == 0
    ensures WoundDown(s, g)
  {
    assert LoopOk(s, g);
    forall b: nat | InFlight(s, b) ensures s.batches[b].owner != g { assert BatchOk(s, b); }
  }

  /** Main result: once its stop event is set, a generation takes at most eight
      more steps of its own in any run; and as long as its task has not ended and
      its callback has not fired, it has one to take. From when the task has ended,
      every stop call that waits for it can leave. */
  lemma DrainTerminates(s: State, after: seq<Event>, g: nat)
    requires Reachable(s) && Legal(s, after) && StopSet(s, g)
    ensures Inv(s) && OwnSteps(s, after, g) <= 8
    ensures var s' := Run(s, after);
            && g < |s'.loops| && (WoundDown(s', g) || exists e :: Enabled(s', e) && OwnStep(s', e, g))
            && (s'.loops[g].pc.Ended? ==> forall c: nat :: AwaitsTask(s', c, g) ==> CanLeave(s', c))
  {
    ReachableInv(s);
    OwnStepsBounded(s, after, g);
    RunKeepsInv(s, after);
    var s' := Run(s, after);
    if Rank(s', g) > 0 {
      var e := DrainHasNextStep(s', g);
    } else {
      RankZeroIsWoundDown(s', g);
    }
    forall c: nat | s'.loops[g].pc.Ended? && AwaitsTask(s', c, g) ensures CanLeave(s', c) {
      WaitingCallCanLeave(s', c, g);
    }
  }

  // ---- Bounded work per interval ---------------------------------------------

  function TurnsOf(w: Worker): int {
    match w case AtCheck(turn, _) => turn case InRun(turn, _) => turn case Finished(_) => MAX_BATCHES_PER_RUN
  }

  ghost predicate WorkerOk(w: Worker) {
    match w
    case AtCheck(turn, _) => turn <= MAX_BATCHES_PER_RUN
    case InRun(turn, _) => turn < MAX_BATCHES_PER_RUN
    case Finished(_) => true
  }

  /** The runs a generation may have completed: ten for every batch but the last,
      and for that one its finished turns. */
  ghost function Allowance(s: State, g: nat): int
    requires g < |s.loops|
  {
    var l := s.loops[g];
    if l.batch.Some? && l.batch.value < |s.batches|
    then MAX_BATCHES_PER_RUN * (l.batchesCreated - 1) + TurnsOf(s.batches[l.batch.value].worker)
    else MAX_BATCHES_PER_RUN * l.batchesCreated
  }

  ghost predicate WithinAllowance(s: State, g: nat)
    requires g < |s.loops|
  {
    && s.loops[g].runs <= Allowance(s, g)
    && s.loops[g].rowsDeleted <= BATCH_LIMIT * Allowance(s, g)
  }

  ghost predicate WorkOk(s: State) {
    && (forall b :: 0 <= b < |s.batches| ==> WorkerOk(s.batches[b].worker))
    && (forall g :: 0 <= g < |s.loops| ==> WithinAllowance(s, g))
  }

  lemma OwnStepKeepsWork(s: State, g: nat, how: Resume)
    requires Inv(s) && WorkOk(s) && LoopCanResume(s, g, how)
    ensures WithinAllowance(LoopStep(s, g, how), g)
  {
    assert LoopOk(s, g) && WithinAllowance(s, g);
    if s.loops[g].batch.Some? { assert BatchOk(s, s.loops[g].batch.value); }
  }

  lemma OthersStepKeepsWork(s: State, h: nat, how: Resume, g: nat)
    requires Inv(s) && WorkOk(s) && LoopCanResume(s, h, how) && g < |s.loops| && g != h
    ensures g < |LoopStep(s, h, how).loops| && WithinAllowance(LoopStep(s, h, how), g)
  {
    assert LoopOk(s, g) && WithinAllowance(s, g);
    LoopStepOfOther(s, h, how, g);
  }

  lemma WorkerStepKeepsWork(s: State, e: Event, g: nat)
    requires Inv(s) && WorkOk(s) && Enabled(s, e) && (e.ThreadCheck? || e.ThreadRun? || e.BatchDone?)
    requires g < |s.loops|
    ensures g < |Apply(s, e).loops| && WithinAllowance(Apply(s, e), g)
  {
    assert BatchOk(s, e.b) && LoopOk(s, g) && WithinAllowance(s, g) && WorkerOk(s.batches[e.b].worker);
  }

  lemma OtherStepKeepsWork(s: State, e: Event, g: nat)
    requires Inv(s) && WorkOk(s) && Enabled(s, e) && g < |Apply(s, e).loops|
    requires !e.LoopResume? && !e.ThreadCheck? && !e.ThreadRun? && !e.BatchDone?
    ensures WithinAllowance(Apply(s, e), g)
  {
    if g < |s.loops| {
      assert WithinAllowance(s, g);
      OtherStepFrame(s, e, g);
    }
  }

  lemma StepKeepsAllowance(s: State, e: Event, g: nat)
    requires Inv(s) && WorkOk(s) && Enabled(s, e) && g < |Apply(s, e).loops|
    ensures WithinAllowance(Apply(s, e), g)
  {
    if e.LoopResume? {
      LoopStepFrame(s, e.g, e.how);
      if e.g == g { OwnStepKeepsWork(s, g, e.how); } else { OthersStepKeepsWork(s, e.g, e.how, g); }
    } else if e.ThreadCheck? || e.ThreadRun? || e.BatchDone? {
      WorkerStepKeepsWork(s, e, g);
    } else {
      OtherStepKeepsWork(s, e, g);
    }
  }

  lemma LoopStepWorkers(s: State, g: nat, how: Resume, b: nat)
    requires Inv(s) && LoopCanResume(s, g, how) && b < |LoopStep(s, g, how).batches|
    ensures LoopStep(s, g, how).batches[b].worker == if b < |s.batches| then s.batches[b].worker else FRESH
  {
    assert LoopOk(s, g);
  }

  lemma StepKeepsWorkers(s: State, e: Event, b: nat)
    requires Inv(s) && WorkOk(s) && Enabled(s, e) && b < |Apply(s, e).batches|
    ensures WorkerOk(Apply(s, e).batches[b].worker)
  {
    if b < |s.batches| { assert WorkerOk(s.batches[b].worker); }
    if e.LoopResume? {
      LoopStepWorkers(s, e.g, e.how, b);
    }
  }

  lemma StepKeepsWork(s: State, e: Event)
    requires Inv(s) && WorkOk(s) && Enabled(s, e)
    ensures WorkOk(Apply(s, e))
  {
    var s' := Apply(s, e);
    forall g | 0 <= g < |s'.loops| ensures WithinAllowance(s', g) { StepKeepsAllowance(s, e, g); }
    forall b | 0 <= b < |s'.batches| ensures WorkerOk(s'.batches[b].worker) { StepKeepsWorkers(s, e, b); }
  }

  lemma {:induction false} RunKeepsWork(s: State, es: seq<Event>)
    requires Inv(s) && WorkOk(s) && Legal(s, es)
    ensures WorkOk(Run(s, es))
    decreases |es|
  {
    if es != [] {
      StepKeepsInv(s, es[0]);
      StepKeepsWork(s, es[0]);
      RunKeepsWork(Apply(s, es[0]), es[1..]);
    }
  }

  lemma IdleWork(s: State, es: seq<Event>)
    requires Idle(s) && Legal(s, es)
    ensures WorkOk(Run(s, es))
  {
    RunKeepsWork(s, es);
  }

  lemma ReachableWork(s: State)
    requires Reachable(s)
    ensures WorkOk(s)
  {
    var s0, es :| Idle(s0) && Legal(s0, es) && Run(s0, es) == s;
    IdleWork(s0, es);
  }

  lemma WorkBoundOf(s: State, g: nat)
    requires Inv(s) && WorkOk(s) && g < |s.loops|
    ensures Allowance(s, g) <= MAX_BATCHES_PER_RUN * (1 + s.loops[g].timeouts)
    ensures WithinAllowance(s, g)
  {
    assert LoopOk(s, g);
    if s.loops[g].batch.Some? { assert WorkerOk(s.batches[s.loops[g].batch.value].worker); }
  }

  /** Main result: in every run a generation completes at most ten runs, and takes
      at most 10000 rows, for its start and for each interval timer it waited for. */
  lemma WorkPerIntervalBounded(s: State, g: nat)
    requires Reachable(s) && g < |s.loops|
    ensures s.loops[g].runs <= 10 * (1 + s.loops[g].timeouts)
    ensures s.loops[g].rowsDeleted <= 10_000 * (1 + s.loops[g].timeouts)
  {
    ReachableInv(s);
    ReachableWork(s);
    WorkBoundOf(s, g);
  }
}
