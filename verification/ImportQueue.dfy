// Admission of the one in-web import worker (routers/admin_import_queue.py): any
// number of request handlers and daemon threads around one lock and one flag.
module ImportQueue {
  import opened Options

  /** How a handler answers: blocked by the setting, 409, scheduled with a worker
      limit, or the exception of a thread that could not be started. */
  datatype Reply = Blocked | Conflict | Scheduled(limit: int) | StartError

  /** Program points of run_import_queue_once. */
  datatype HandlerPc =
    | WantsLock      // line 143
    | Checking       // line 144, holding the lock
    | Setting        // line 146, holding the lock, having read False
    | Leaving(admitted: bool)   // about to release the lock
    | Starting       // lines 147-154
    | Replied(reply: Reply)

  /** How a block ends: normally, with an Exception, or with one that `except
      Exception` does not catch. */
  datatype Ending = Returns | RaisesException | RaisesOther

  /** Program points of _run_queue_once_isolated. In the finally block `pending` is
      what is on its way out of the thread. */
  datatype WorkerPc =
    | NoThread
    | Running        // line 105
    | Logging        // line 107, after an Exception
    | Recording      // lines 108-117
    | WorkerWantsLock(pending: Ending)   // line 119
    | Clearing(pending: Ending)          // line 120, holding the lock
    | WorkerLeaving(pending: Ending)     // about to release the lock
    | Finished(pending: Ending)

  /** One request, with the thread it may have started. `enabled` is history: what
      the setting was when it came. */
  datatype Request = Request(limit: int, enabled: bool, handler: HandlerPc, worker: WorkerPc)

  datatype Actor = Handler(r: nat) | Worker(r: nat)

  datatype State = State(inProgress: bool, holder: Option<Actor>, requests: seq<Request>)

  datatype Event =
    | Arrive(limit: int, enabled: bool)
    | StepHandler(r: nat, startWorks: bool)
    | StepWorker(r: nat, how: Ending)

  const INIT := State(false, None, [])

  /** max(1, min(int(limit or 1), 5)) */
  function WorkerLimit(limit: int): int {
    var requested := if limit == 0 then 1 else limit;
    var capped := if requested < 5 then requested else 5;
    if capped < 1 then 1 else capped
  }

  lemma WorkerLimitInRange(limit: int)
    ensures 1 <= WorkerLimit(limit) <= 5
    ensures 1 <= limit <= 5 ==> WorkerLimit(limit) == limit
    ensures limit <= 0 ==> WorkerLimit(limit) == 1
    ensures limit >= 5 ==> WorkerLimit(limit) == 5
    ensures forall other :: limit <= other && limit != 0 && other != 0 ==> WorkerLimit(limit) <= WorkerLimit(other)
  {
  }

  // ---- Steps -----------------------------------------------------------------

  predicate HandlerHolds(pc: HandlerPc) { pc.Checking? || pc.Setting? || pc.Leaving? }

  predicate WorkerHolds(pc: WorkerPc) { pc.Clearing? || pc.WorkerLeaving? }

  predicate Enabled(s: State, e: Event) {
    match e
    case Arrive(_, _) => true
    case StepHandler(r, _) =>
      && r < |s.requests| && !s.requests[r].handler.Replied?
      && (s.requests[r].handler.WantsLock? ==> s.holder.None?)
    case StepWorker(r, _) =>
      && r < |s.requests| && !s.requests[r].worker.NoThread? && !s.requests[r].worker.Finished?
      && (s.requests[r].worker.WorkerWantsLock? ==> s.holder.None?)
  }

  function AtHandler(s: State, r: nat, pc: HandlerPc): State
    requires r < |s.requests|
  {
    s.(requests := s.requests[r := s.requests[r].(handler := pc)])
  }

  function AtWorker(s: State, r: nat, pc: WorkerPc): State
    requires r < |s.requests|
  {
    s.(requests := s.requests[r := s.requests[r].(worker := pc)])
  }

  function HandlerStep(s: State, r: nat, startWorks: bool): State
    requires r < |s.requests|
  {
    match s.requests[r].handler
    case WantsLock => AtHandler(s, r, Checking).(holder := Some(Handler(r)))
    case Checking => AtHandler(s, r, if s.inProgress then Leaving(false) else Setting)
    case Setting => AtHandler(s, r, Leaving(true)).(inProgress := true)
    case Leaving(admitted) => AtHandler(s, r, if admitted then Starting else Replied(Conflict)).(holder := None)
    case Starting =>
      if startWorks then AtWorker(AtHandler(s, r, Replied(Scheduled(WorkerLimit(s.requests[r].limit)))), r, Running)
      else AtHandler(s, r, Replied(StartError))
    case Replied(_) => s
  }

  function WorkerStep(s: State, r: nat, how: Ending): State
    requires r < |s.requests|
  {
    match s.requests[r].worker
    case Running => AtWorker(s, r, if how.RaisesException? then Logging else WorkerWantsLock(how))
    case Logging => AtWorker(s, r, if how.Returns? then Recording else WorkerWantsLock(how))
    case Recording => AtWorker(s, r, WorkerWantsLock(if how.RaisesOther? then RaisesOther else Returns))
    case WorkerWantsLock(pending) => AtWorker(s, r, Clearing(pending)).(holder := Some(Worker(r)))
    case Clearing(pending) => AtWorker(s, r, WorkerLeaving(pending)).(inProgress := false)
    case WorkerLeaving(pending) => AtWorker(s, r, Finished(pending)).(holder := None)
    case _ => s
  }

  function Apply(s: State, e: Event): State
    requires Enabled(s, e)
  {
    match e
    case Arrive(limit, enabled) =>
      s.(requests := s.requests + [Request(limit, enabled, if enabled then WantsLock else Replied(Blocked), NoThread)])
    case StepHandler(r, startWorks) => HandlerStep(s, r, startWorks)
    case StepWorker(r, how) => WorkerStep(s, r, how)
  }

  ghost predicate Legal(s: State, es: seq<Event>)
    decreases |es|
  {
    es == [] || (Enabled(s, es[0]) && Legal(Apply(s, es[0]), es[1..]))
  }

  ghost function Run(s: State, es: seq<Event>): State
    requires Legal(s, es)
    decreases |es|
  {
    if es == [] then s else Run(Apply(s, es[0]), es[1..])
  }

  // ---- The invariant ---------------------------------------------------------

  /** The thread has not reached its finally block. */
  predicate InTry(pc: WorkerPc) { pc.Running? || pc.Logging? || pc.Recording? }

  /** The iteration has a running thread, or is about to get one: from the moment
      the flag was set until the moment it is cleared. */
  predicate InIteration(q: Request) {
    || q.handler == Leaving(true) || q.handler.Starting?
    || InTry(q.worker) || q.worker.WorkerWantsLock? || q.worker.Clearing?
  }

  /** Admitted, but the thread never came to be. */
  predicate Abandoned(q: Request) { q.handler == Replied(StartError) }

  predicate Owns(q: Request) { InIteration(q) || Abandoned(q) }

  ghost predicate RequestOk(s: State, r: nat)
    requires r < |s.requests|
  {
    var q := s.requests[r];
    && (HandlerHolds(q.handler) <==> s.holder == Some(Handler(r)))
    && (WorkerHolds(q.worker) <==> s.holder == Some(Worker(r)))
    && (!q.worker.NoThread? ==> q.handler == Replied(Scheduled(WorkerLimit(q.limit))))
    && (q.handler.Setting? ==> !s.inProgress)
    && (q.handler.Replied? && q.handler.reply.Scheduled? ==> !q.worker.NoThread?)
  }

  ghost predicate Inv(s: State) {
    && (forall r :: 0 <= r < |s.requests| ==> RequestOk(s, r))
    && (forall r, t ::
          0 <= r < |s.requests| && 0 <= t < |s.requests| && Owns(s.requests[r]) && Owns(s.requests[t]) ==> r == t)
    && (s.inProgress <==> exists r :: 0 <= r < |s.requests| && Owns(s.requests[r]))
    && (s.holder.Some? ==> s.holder.value.r < |s.requests|)
  }

  lemma StepKeepsRequests(s: State, e: Event, r: nat)
    requires Inv(s) && Enabled(s, e) && r < |Apply(s, e).requests|
    ensures RequestOk(Apply(s, e), r)
  {
    if r < |s.requests| { assert RequestOk(s, r); }
    if !e.Arrive? { assert RequestOk(s, e.r); }
  }

  /** How a step moves the flag together with its owner. */
  lemma StepMovesOwnership(s: State, e: Event)
    requires Inv(s) && Enabled(s, e) && !e.Arrive?
    ensures var s' := Apply(s, e);
            && s'.requests == s.requests[e.r := s'.requests[e.r]]
            && (|| (s'.inProgress == s.inProgress && Owns(s'.requests[e.r]) == Owns(s.requests[e.r]))
                || (!s.inProgress && s'.inProgress && Owns(s'.requests[e.r]))
                || (Owns(s.requests[e.r]) && !s'.inProgress && !Owns(s'.requests[e.r])))
  {
    assert RequestOk(s, e.r);
  }

  lemma StepKeepsInv(s: State, e: Event)
    requires Inv(s) && Enabled(s, e)
    ensures Inv(Apply(s, e)) && |s.requests| <= |Apply(s, e).requests|
  {
    var s' := Apply(s, e);
    forall r | 0 <= r < |s'.requests| ensures RequestOk(s', r) { StepKeepsRequests(s, e, r); }
    if e.Arrive? {
      assert forall r :: 0 <= r < |s.requests| ==> s'.requests[r] == s.requests[r];
      assert !Owns(s'.requests[|s.requests|]);
    } else {
      StepMovesOwnership(s, e);
      assert forall r :: 0 <= r < |s.requests| && r != e.r ==> s'.requests[r] == s.requests[r];
    }
  }

  lemma {:induction false} RunKeepsInv(s: State, es: seq<Event>)
    requires Inv(s) && Legal(s, es)
    ensures Inv(Run(s, es)) && |s.requests| <= |Run(s, es).requests|
    decreases |es|
  {
    if es != [] {
      StepKeepsInv(s, es[0]);
      RunKeepsInv(Apply(s, es[0]), es[1..]);
    }
  }

  predicate WasScheduled(q: Request) { q.handler.Replied? && q.handler.reply.Scheduled? }

  /** Main result: in every interleaving at most one iteration is under way, and
      the flag is true exactly from its admission to its final clear - or for ever,
      when the admitted request's thread could not be started. */
  lemma OneIterationAtATime(es: seq<Event>)
    requires Legal(INIT, es)
    ensures var s := Run(INIT, es);
            && (forall r, t :: (0 <= r < |s.requests| && 0 <= t < |s.requests|
                                && InIteration(s.requests[r]) && InIteration(s.requests[t])) ==> r == t)
            && (s.inProgress <==>
                  exists r :: 0 <= r < |s.requests| && (InIteration(s.requests[r]) || Abandoned(s.requests[r])))
            && (forall r :: 0 <= r < |s.requests| && WasScheduled(s.requests[r])
                  ==> 1 <= s.requests[r].handler.reply.limit <= 5)
  {
    assert Inv(INIT);
    RunKeepsInv(INIT, es);
    var s := Run(INIT, es);
    forall r | 0 <= r < |s.requests| && WasScheduled(s.requests[r])
      ensures 1 <= s.requests[r].handler.reply.limit <= 5
    {
      assert RequestOk(s, r);
    }
  }

  // ---- Which answer a request gets --------------------------------------------

  /** The request has been under way: its handler set the flag. */
  ghost predicate Admits(s: State, e: Event, r: nat)
    requires Enabled(s, e)
  {
    r < |s.requests| && r < |Apply(s, e).requests| && e.StepHandler? && e.r == r
    && !s.inProgress && Apply(s, e).inProgress
  }

  ghost predicate Admitted(s: State, es: seq<Event>, r: nat)
    requires Legal(s, es)
    decreases |es|
  {
    es != [] && (Admits(s, es[0], r) || Admitted(Apply(s, es[0]), es[1..], r))
  }

  /** Where a request stands, given whether it has been admitted so far. */
  ghost predicate AnswerOk(q: Request, admitted: bool) {
    match q.handler
    case Replied(Blocked) => !q.enabled && !admitted && q.worker == NoThread
    case Replied(Conflict) => q.enabled && !admitted && q.worker == NoThread
    case Replied(Scheduled(_)) => q.enabled && admitted && q.worker != NoThread
    case Replied(StartError) => q.enabled && admitted && q.worker == NoThread
    case Leaving(a) => q.enabled && admitted == a && q.worker == NoThread
    case Starting => q.enabled && admitted && q.worker == NoThread
    case _ => q.enabled && !admitted && q.worker == NoThread
  }

  lemma StepAnswers(s: State, e: Event, r: nat, admitted: bool)
    requires Inv(s) && Enabled(s, e) && r < |s.requests| && AnswerOk(s.requests[r], admitted)
    ensures AnswerOk(Apply(s, e).requests[r], admitted || Admits(s, e, r))
    ensures Apply(s, e).requests[r].enabled == s.requests[r].enabled
    ensures Apply(s, e).requests[r].limit == s.requests[r].limit
  {
    if !e.Arrive? { assert RequestOk(s, e.r); }
    assert RequestOk(s, r);
  }

  lemma {:induction false} RunAnswers(s: State, es: seq<Event>, r: nat, admitted: bool)
    requires Inv(s) && Legal(s, es) && r < |s.requests| && AnswerOk(s.requests[r], admitted)
    ensures r < |Run(s, es).requests| && AnswerOk(Run(s, es).requests[r], admitted || Admitted(s, es, r))
    ensures Run(s, es).requests[r].enabled == s.requests[r].enabled
    ensures Run(s, es).requests[r].limit == s.requests[r].limit
    decreases |es|
  {
    if es != [] {
      StepKeepsInv(s, es[0]);
      StepAnswers(s, es[0], r, admitted);
      RunAnswers(Apply(s, es[0]), es[1..], r, admitted || Admits(s, es[0], r));
    }
  }

  /** Main result: from its arrival on, in every interleaving, a request that finds the
      setting off is answered "blocked" there and then and never gets a thread; one
      that finds it on never is. It is answered with a conflict only if it was never
      admitted, and "scheduled", or with its thread's failure to start, only if it was. */
  lemma AnswersMatch(s: State, limit: int, enabled: bool, es: seq<Event>)
    requires Inv(s) && Legal(Apply(s, Arrive(limit, enabled)), es)
    ensures var s1, r := Apply(s, Arrive(limit, enabled)), |s.requests|;
            && r < |Run(s1, es).requests|
            && var q := Run(s1, es).requests[r];
            && (!enabled ==> q.handler == Replied(Blocked) && q.worker == NoThread)
            && (enabled ==> q.handler != Replied(Blocked))
            && (q.handler == Replied(Conflict) ==> !Admitted(s1, es, r) && q.worker == NoThread)
            && (WasScheduled(q) ==>
                  && Admitted(s1, es, r)
                  && q.handler.reply.limit == if limit < 1 then 1 else if limit > 5 then 5 else limit)
            && (q.handler == Replied(StartError) ==> Admitted(s1, es, r) && q.worker == NoThread)
  {
    StepKeepsInv(s, Arrive(limit, enabled));
    var s1, r := Apply(s, Arrive(limit, enabled)), |s.requests|;
    RunAnswers(s1, es, r, false);
    RunKeepsInv(s1, es);
    assert RequestOk(Run(s1, es), r);
  }

  /** And the flag decides: checked under the lock, a clear one admits the request,
      whatever it asks for, and a set one sends it away. */
  lemma FlagDecides(s: State, r: nat)
    requires Inv(s) && r < |s.requests| && s.requests[r].handler.Checking?
    ensures var step := StepHandler(r, true);
            && Enabled(s, step) && Enabled(Apply(s, step), step)
            && var s2 := Apply(Apply(s, step), step);
            && (s.inProgress ==> s2.inProgress && s2.requests[r].handler == Replied(Conflict) && s2.holder == None)
            && (!s.inProgress ==> s2.inProgress && Owns(s2.requests[r]) && s2.holder == Some(Handler(r)))
  {
    assert RequestOk(s, r);
  }

  // ---- What escapes from a worker thread --------------------------------------

  lemma Prepend(s: State, e: Event, es: seq<Event>)
    requires Enabled(s, e) && Legal(Apply(s, e), es)
    ensures Legal(s, [e] + es) && Run(s, [e] + es) == Run(Apply(s, e), es)
  {
    assert ([e] + es)[1..] == es;
  }

  /** An exception of this kind is on its way out of the request's thread, or has
      left it. */
  predicate Escapes(s: State, r: nat, kind: Ending) {
    r < |s.requests| &&
    match s.requests[r].worker
    case WorkerWantsLock(pending) => pending == kind
    case Clearing(pending) => pending == kind
    case WorkerLeaving(pending) => pending == kind
    case Finished(pending) => pending == kind
    case _ => false
  }

  /** The thread's code raises what no clause catches: any exception but an Exception,
      anywhere, or an Exception in the logger call, outside the inner try. */
  predicate RaisesUncaught(s: State, e: Event, r: nat, kind: Ending)
    requires Enabled(s, e)
  {
    && e == StepWorker(r, kind)
    && (s.requests[r].worker.Logging? || (kind.RaisesOther? && InTry(s.requests[r].worker)))
  }

  /** It does so somewhere in the run. */
  ghost predicate RaisedUncaught(s: State, es: seq<Event>, r: nat, kind: Ending)
    requires Legal(s, es)
    decreases |es|
  {
    es != [] && (RaisesUncaught(s, es[0], r, kind) || RaisedUncaught(Apply(s, es[0]), es[1..], r, kind))
  }

  lemma StepEscapes(s: State, e: Event, r: nat, kind: Ending)
    requires Inv(s) && Enabled(s, e) && kind != Returns
    ensures Escapes(Apply(s, e), r, kind) <==> (Escapes(s, r, kind) || RaisesUncaught(s, e, r, kind))
  {
    if !e.Arrive? { assert RequestOk(s, e.r); }
  }

  /** However the iteration fails and whatever recording the failure does: an
      Exception escapes from the thread exactly when the logger call raises it, and
      any other exception exactly when the thread's code raises it. */
  lemma {:induction false} OnlyTheLoggerEscapes(s: State, es: seq<Event>, r: nat, kind: Ending)
    requires Inv(s) && Legal(s, es) && kind != Returns
    ensures Escapes(Run(s, es), r, kind) <==> (Escapes(s, r, kind) || RaisedUncaught(s, es, r, kind))
    decreases |es|
  {
    if es != [] {
      StepKeepsInv(s, es[0]);
      StepEscapes(s, es[0], r, kind);
      OnlyTheLoggerEscapes(Apply(s, es[0]), es[1..], r, kind);
    }
  }

  /** A failed iteration is logged, and then recorded, before the thread goes for the
      lock; a successful one goes there at once. */
  lemma FailureIsRecorded(s: State, r: nat)
    requires Inv(s) && r < |s.requests| && s.requests[r].worker.Running?
    ensures Apply(s, StepWorker(r, Returns)).requests[r].worker == WorkerWantsLock(Returns)
    ensures var s1 := Apply(s, StepWorker(r, RaisesException));
            && s1.requests[r].worker == Logging
            && Apply(s1, StepWorker(r, Returns)).requests[r].worker == Recording
  {
  }

  /** And with or without it, the thread clears the flag before it is over. */
  lemma FlagClearedOnEveryWayOut(s: State, r: nat, how: Ending)
    requires Inv(s) && r < |s.requests| && s.requests[r].worker.WorkerWantsLock? && s.holder.None?
    ensures var es := [StepWorker(r, how)] + ([StepWorker(r, how)] + [StepWorker(r, how)]);
            && Legal(s, es) && !Run(s, es).inProgress && Run(s, es).holder.None?
            && r < |Run(s, es).requests|
            && Run(s, es).requests[r].worker == Finished(s.requests[r].worker.pending)
  {
    var step := StepWorker(r, how);
    var s1 := Apply(s, step);
    var s2 := Apply(s1, step);
    assert Legal(Apply(s2, step), []);
    Prepend(s2, step, []);
    Prepend(s1, step, [step] + []);
    assert [step] + [] == [step];
    Prepend(s, step, [step] + [step]);
  }

  // ---- Admission is possible again, exactly unless a start has failed ---------

  ghost predicate SomeAbandoned(s: State) { exists r :: 0 <= r < |s.requests| && Abandoned(s.requests[r]) }

  /** The request was admitted at some point. */
  predicate WasAdmitted(q: Request) { Owns(q) || q.worker.WorkerLeaving? || q.worker.Finished? }

  /** A request yet to come can be admitted in some continuation. */
  ghost predicate CanAdmitAgain(s: State) {
    exists es :: Legal(s, es) &&
      exists r: nat :: |s.requests| <= r < |Run(s, es).requests| && WasAdmitted(Run(s, es).requests[r])
  }

  /** While `a` is abandoned, nothing from `from` on has been admitted. */
  ghost predicate NoneAdmittedFrom(s: State, from: nat) {
    forall r :: from <= r < |s.requests| ==> !WasAdmitted(s.requests[r])
  }

  lemma AbandonedAlone(s: State, a: nat, from: nat)
    requires Inv(s) && a < |s.requests| && Abandoned(s.requests[a]) && from == |s.requests|
    ensures NoneAdmittedFrom(s, from)
  {
  }

  lemma {:induction false} AbandonedStays(s: State, es: seq<Event>, a: nat, from: nat)
    requires Inv(s) && Legal(s, es) && a < from <= |s.requests| && Abandoned(s.requests[a]) && NoneAdmittedFrom(s, from)
    ensures var s' := Run(s, es);
            && s'.inProgress && from <= |s'.requests| && Abandoned(s'.requests[a]) && NoneAdmittedFrom(s', from)
    decreases |es|
  {
    if es != [] {
      var e, s1 := es[0], Apply(s, es[0]);
      StepKeepsInv(s, e);
      if !e.Arrive? { assert RequestOk(s, e.r) && RequestOk(s, a); }
      assert Abandoned(s1.requests[a]);
      forall r | from <= r < |s1.requests| ensures !WasAdmitted(s1.requests[r]) {
        if r < |s.requests| { assert RequestOk(s, r) && !WasAdmitted(s.requests[r]); }
      }
      AbandonedStays(s1, es[1..], a, from);
    }
  }

  lemma AbandonedBlocksForEver(s: State, es: seq<Event>, a: nat)
    requires Inv(s) && Legal(s, es) && a < |s.requests| && Abandoned(s.requests[a])
    ensures var s' := Run(s, es);
            && s'.inProgress && |s.requests| <= |s'.requests| && Abandoned(s'.requests[a])
            && forall r :: |s.requests| <= r < |s'.requests| ==> !WasAdmitted(s'.requests[r])
  {
    AbandonedAlone(s, a, |s.requests|);
    AbandonedStays(s, es, a, |s.requests|);
  }

  function HandlerLeft(pc: HandlerPc): nat {
    match pc
    case WantsLock => 5
    case Checking => 4
    case Setting => 3
    case Leaving(_) => 2
    case Starting => 1
    case Replied(_) => 0
  }

  function WorkerLeft(pc: WorkerPc): nat {
    match pc
    case NoThread => 7
    case Running => 6
    case Logging => 5
    case Recording => 4
    case WorkerWantsLock(_) => 3
    case Clearing(_) => 2
    case WorkerLeaving(_) => 1
    case Finished(_) => 0
  }

  function LeftOf(q: Request): nat { HandlerLeft(q.handler) + WorkerLeft(q.worker) }

  function Left(requests: seq<Request>): nat {
    if requests == [] then 0 else Left(requests[..|requests| - 1]) + LeftOf(requests[|requests| - 1])
  }

  lemma {:induction false} LeftUpdate(requests: seq<Request>, r: nat, q: Request)
    requires r < |requests|
    ensures Left(requests[r := q]) == Left(requests) - LeftOf(requests[r]) + LeftOf(q)
    decreases |requests|
  {
    var n := |requests| - 1;
    if r < n {
      LeftUpdate(requests[..n], r, q);
      assert requests[r := q][..n] == requests[..n][r := q];
    } else {
      assert requests[r := q][..n] == requests[..n];
    }
  }

  lemma MoveTakesAStep(s: State, e: Event)
    requires Inv(s) && Enabled(s, e) && (e.StepWorker? || (e.StepHandler? && e.startWorks))
    ensures LeftOf(Apply(s, e).requests[e.r]) < LeftOf(s.requests[e.r])
    ensures Abandoned(Apply(s, e).requests[e.r]) ==> Abandoned(s.requests[e.r])
  {
    assert RequestOk(s, e.r);
  }

  lemma MoveCosts(s: State, e: Event)
    requires Inv(s) && Enabled(s, e) && (e.StepWorker? || (e.StepHandler? && e.startWorks)) && !SomeAbandoned(s)
    ensures !SomeAbandoned(Apply(s, e)) && |Apply(s, e).requests| == |s.requests|
    ensures Left(Apply(s, e).requests) < Left(s.requests)
  {
    var s' := Apply(s, e);
    StepMovesOwnership(s, e);
    MoveTakesAStep(s, e);
    LeftUpdate(s.requests, e.r, s'.requests[e.r]);
    assert !Abandoned(s.requests[e.r]) && !Abandoned(s'.requests[e.r]);
  }

  /** Unless the queue is idle, some handler or thread can finish one more of its
      steps without anyone failing to start. */
  lemma SomeoneMoves(s: State) returns (e: Event)
    requires Inv(s) && !SomeAbandoned(s) && (s.inProgress || s.holder.Some?)
    ensures Enabled(s, e) && !e.Arrive?
    ensures !SomeAbandoned(Apply(s, e)) && |Apply(s, e).requests| == |s.requests|
    ensures Left(Apply(s, e).requests) < Left(s.requests)
  {
    var r: nat;
    if s.holder.Some? {
      r := s.holder.value.r;
      assert RequestOk(s, r);
      e := if s.holder.value.Handler? then StepHandler(r, true) else StepWorker(r, Returns);
    } else {
      r :| r < |s.requests| && Owns(s.requests[r]);
      assert RequestOk(s, r);
      e := if s.requests[r].handler.Starting? then StepHandler(r, true) else StepWorker(r, Returns);
    }
    MoveCosts(s, e);
  }

  lemma {:induction false} ReachesAdmission(s: State) returns (es: seq<Event>)
    requires Inv(s) && !SomeAbandoned(s)
    ensures Legal(s, es)
    ensures |s.requests| < |Run(s, es).requests| && WasAdmitted(Run(s, es).requests[|s.requests|])
    decreases Left(s.requests)
  {
    if s.inProgress || s.holder.Some? {
      var e := SomeoneMoves(s);
      StepKeepsInv(s, e);
      var rest := ReachesAdmission(Apply(s, e));
      Prepend(s, e, rest);
      es := [e] + rest;
    } else {
      var r := |s.requests|;
      var s1 := Apply(s, Arrive(1, true));
      var step := StepHandler(r, true);
      var s2 := Apply(s1, step);
      var s3 := Apply(s2, step);
      var s4 := Apply(s3, step);
      assert WasAdmitted(s4.requests[r]) && Legal(s4, []);
      Prepend(s3, step, []);
      Prepend(s2, step, [step] + []);
      Prepend(s1, step, [step] + ([step] + []));
      Prepend(s, Arrive(1, true), [step] + ([step] + ([step] + [])));
      es := [Arrive(1, true)] + ([step] + ([step] + ([step] + [])));
    }
  }

  /** Main result: in every reachable state later requests can be admitted again,
      exactly when no admitted request's thread has failed to start. */
  lemma AdmissionRecoverable(es: seq<Event>)
    requires Legal(INIT, es)
    ensures CanAdmitAgain(Run(INIT, es)) <==> !SomeAbandoned(Run(INIT, es))
  {
    assert Inv(INIT);
    RunKeepsInv(INIT, es);
    var s := Run(INIT, es);
    if SomeAbandoned(s) {
      var a: nat :| a < |s.requests| && Abandoned(s.requests[a]);
      forall more | Legal(s, more)
        ensures forall r: nat :: |s.requests| <= r < |Run(s, more).requests| ==> !WasAdmitted(Run(s, more).requests[r])
      {
        AbandonedBlocksForEver(s, more, a);
      }
    } else {
      var more := ReachesAdmission(s);
      assert |s.requests| <= |s.requests| < |Run(s, more).requests|;
    }
  }

  // ---- Concrete runs ---------------------------------------------------------

  ghost predicate Reachable(s: State) {
    exists es :: Legal(INIT, es) && Run(INIT, es) == s
  }

  lemma {:induction false} Append(s: State, es: seq<Event>, e: Event)
    requires Legal(s, es) && Enabled(Run(s, es), e)
    ensures Legal(s, es + [e]) && Run(s, es + [e]) == Apply(Run(s, es), e)
    decreases |es|
  {
    if es == [] {
      Prepend(s, e, []);
      assert es + [e] == [e] + [];
    } else {
      Append(Apply(s, es[0]), es[1..], e);
      assert (es + [e])[1..] == es[1..] + [e];
    }
  }

  lemma Then(s: State, e: Event) returns (s': State)
    requires Reachable(s) && Enabled(s, e)
    ensures Reachable(s') && s' == Apply(s, e)
  {
    var es :| Legal(INIT, es) && Run(INIT, es) == s;
    Append(INIT, es, e);
    s' := Apply(s, e);
  }

  /** One request, admitted, with its thread about to be started. */
  lemma AboutToStart() returns (s: State)
    ensures Reachable(s) && |s.requests| == 1 && s.requests[0].handler.Starting? && s.requests[0].worker.NoThread?
  {
    assert Legal(INIT, []);
    s := Then(INIT, Arrive(1, true));
    s := Then(s, StepHandler(0, true));
    s := Then(s, StepHandler(0, true));
    s := Then(s, StepHandler(0, true));
    s := Then(s, StepHandler(0, true));
  }

  /** A start can fail: one request is enough to close the queue. */
  lemma FailedStartIsReachable() returns (s: State)
    ensures Reachable(s) && SomeAbandoned(s)
  {
    s := AboutToStart();
    s := Then(s, StepHandler(0, false));
    assert Abandoned(s.requests[0]);
  }

  /** And an Exception can escape: the iteration fails, then the logger. */
  lemma EscapeIsReachable() returns (s: State)
    ensures Reachable(s) && Escapes(s, 0, RaisesException)
  {
    s := AboutToStart();
    s := Then(s, StepHandler(0, true));
    s := Then(s, StepWorker(0, RaisesException));
    s := Then(s, StepWorker(0, RaisesException));
  }

  // ---- The module's globals --------------------------------------------------

  /** _run_once_lock, _run_once_in_progress and the calls in progress; each method
      runs one statement of a handler or of a worker thread. */
  class AdmissionControl {
    var runOnceInProgress: bool
    var lockHolder: Option<Actor>
    var requests: seq<Request>

    ghost function Abs(): State
      reads this
    {
      State(runOnceInProgress, lockHolder, requests)
    }

    ghost predicate Valid()
      reads this
    {
      Inv(Abs())
    }

    constructor ()
      ensures Valid() && Abs() == INIT
    {
      runOnceInProgress, lockHolder, requests := false, None, [];
    }

    /** Line 136: the setting is read before anything else. */
    method ReceiveRequest(limit: int, enabled: bool) returns (r: nat)
      requires Valid()
      modifies this`requests
      ensures Abs() == Apply(old(Abs()), Arrive(limit, enabled))
      ensures Valid() && r == |old(requests)|
    {
      StepKeepsInv(Abs(), Arrive(limit, enabled));
      r := |requests|;
      if !enabled {
        requests := requests + [Request(limit, enabled, Replied(Blocked), NoThread)];
        return;
      }
      requests := requests + [Request(limit, enabled, WantsLock, NoThread)];
    }

    /** `with _run_once_lock`, entered and left - normally or by an exception. */
    method EnterLock(a: Actor)
      requires lockHolder.None?
      modifies this`lockHolder
      ensures lockHolder == Some(a)
    {
      lockHolder := Some(a);
    }

    method LeaveLock()
      modifies this`lockHolder
      ensures lockHolder == None
    {
      lockHolder := None;
    }

    /** The handler goes on to another line. */
    method HandlerGoesTo(r: nat, pc: HandlerPc)
      requires r < |requests|
      modifies this`requests
      ensures Abs() == AtHandler(old(Abs()), r, pc)
    {
      requests := requests[r := requests[r].(handler := pc)];
    }

    method WorkerGoesTo(r: nat, pc: WorkerPc)
      requires r < |requests|
      modifies this`requests
      ensures Abs() == AtWorker(old(Abs()), r, pc)
    {
      requests := requests[r := requests[r].(worker := pc)];
    }

    /** Lines 143-155, one statement at a time: the raise of line 145 leaves the
        `with` block without admission, the assignment of line 146 with it. */
    method RunImportQueueOnce(r: nat, startWorks: bool)
      requires Valid() && Enabled(Abs(), StepHandler(r, startWorks))
      modifies this
      ensures Abs() == Apply(old(Abs()), StepHandler(r, startWorks))
      ensures Valid()
    {
      StepKeepsInv(Abs(), StepHandler(r, startWorks));
      match requests[r].handler
      case WantsLock =>
        EnterLock(Handler(r));
        HandlerGoesTo(r, Checking);
      case Checking =>
        if runOnceInProgress {
          HandlerGoesTo(r, Leaving(false));
        } else {
          HandlerGoesTo(r, Setting);
        }
      case Setting =>
        runOnceInProgress := true;
        HandlerGoesTo(r, Leaving(true));
      case Leaving(admitted) =>
        LeaveLock();
        HandlerGoesTo(r, if admitted then Starting else Replied(Conflict));
      case Starting =>
        var workerLimit := WorkerLimit(requests[r].limit);
        if !startWorks {
          HandlerGoesTo(r, Replied(StartError));
          return;
        }
        WorkerGoesTo(r, Running);
        HandlerGoesTo(r, Replied(Scheduled(workerLimit)));
    }

    /** Lines 104-117: the iteration, and what its `except` clause does with an
        Exception. One that the record of the failure raises is swallowed; one of
        the logger call before it is not. */
    method TryBlock(r: nat, how: Ending)
      requires r < |requests| && InTry(requests[r].worker)
      modifies this`requests
      ensures Abs() == WorkerStep(old(Abs()), r, how)
    {
      match requests[r].worker
      case Running =>
        if how.RaisesException? {
          WorkerGoesTo(r, Logging);
          return;
        }
        WorkerGoesTo(r, WorkerWantsLock(how));
      case Logging =>
        if how.Returns? {
          WorkerGoesTo(r, Recording);
          return;
        }
        WorkerGoesTo(r, WorkerWantsLock(how));
      case Recording =>
        var pending := how;
        if pending.RaisesException? {
          pending := Returns;
        }
        WorkerGoesTo(r, WorkerWantsLock(pending));
    }

    /** Lines 118-120, on every way out of the thread. */
    method FinallyBlock(r: nat, how: Ending)
      requires r < |requests| && (requests[r].worker.WorkerWantsLock? ==> lockHolder.None?)
      requires requests[r].worker.WorkerWantsLock? || requests[r].worker.Clearing? || requests[r].worker.WorkerLeaving?
      modifies this
      ensures Abs() == WorkerStep(old(Abs()), r, how)
    {
      match requests[r].worker
      case WorkerWantsLock(pending) =>
        EnterLock(Worker(r));
        WorkerGoesTo(r, Clearing(pending));
      case Clearing(pending) =>
        runOnceInProgress := false;
        WorkerGoesTo(r, WorkerLeaving(pending));
      case WorkerLeaving(pending) =>
        LeaveLock();
        WorkerGoesTo(r, Finished(pending));
    }

    /** _run_queue_once_isolated, one statement at a time. */
    method RunQueueOnceIsolated(r: nat, how: Ending)
      requires Valid() && Enabled(Abs(), StepWorker(r, how))
      modifies this
      ensures Abs() == Apply(old(Abs()), StepWorker(r, how))
      ensures Valid()
    {
      StepKeepsInv(Abs(), StepWorker(r, how));
      if InTry(requests[r].worker) {
        TryBlock(r, how);
      } else {
        FinallyBlock(r, how);
      }
    }
  }
}
