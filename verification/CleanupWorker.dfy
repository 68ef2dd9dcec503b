// One cleanup batch: the worker thread's bounded loop, and the transaction it
// runs in each turn (core/route_state_cleanup_scheduler.py:131-142,
// core/route_state_cleanup_runner.py, services/route_state_cleanup_service.py).
module CleanupWorker {

  const BATCH_LIMIT: nat := 1000
  const MAX_BATCHES_PER_RUN: nat := 10
  const SERVICE_MAX_LIMIT: nat := 10_000

  /** What one call of the runner comes to: a row count for its caller, or an
      exception - and then the rows that are gone all the same. */
  datatype RunResult = Deleted(rows: nat) | RunFailed(lost: nat)

  /** The rows a run has taken out of the database. */
  function Gone(r: RunResult): nat {
    match r case Deleted(rows) => rows case RunFailed(lost) => lost
  }

  /** What a whole bounded cleanup gives the awaiting loop. */
  datatype BatchResult = Total(rows: nat) | Error

  /** Program points of the worker thread: about to read the stop event, inside
      the runner, or returned. `turn` counts finished turns of the for loop. */
  datatype Worker =
    | AtCheck(turn: nat, total: nat)
    | InRun(turn: nat, total: nat)
    | Finished(result: BatchResult)

  const FRESH: Worker := AtCheck(0, 0)

  function AfterCheck(w: Worker, stopSet: bool): Worker
    requires w.AtCheck?
  {
    if w.turn == MAX_BATCHES_PER_RUN || stopSet then Finished(Total(w.total)) else InRun(w.turn, w.total)
  }

  function AfterRun(w: Worker, r: RunResult): Worker
    requires w.InRun?
  {
    match r
    case RunFailed(_) => Finished(Error)
    case Deleted(n) =>
      if n < BATCH_LIMIT then Finished(Total(w.total + n)) else AtCheck(w.turn + 1, w.total + n)
  }

  // ---- One transaction -------------------------------------------------------

  /** How a commit ends: it goes through, it is refused, or it goes through and the
      caller gets an exception all the same. */
  datatype CommitEnd = Acknowledged | Refused | Unacknowledged

  /** Which statements of a run raise. */
  datatype Faults = Faults(open: bool, delete: bool, commit: CommitEnd, rollback: bool, close: bool)

  /** The run ends in an exception. */
  predicate Raises(f: Faults) { f.open || f.delete || f.commit != Acknowledged || f.close }

  /** The run's rows are gone when it ends. */
  predicate Takes(f: Faults) { !f.open && !f.delete && f.commit != Refused }

  function Min(a: int, b: int): int { if a < b then a else b }
  function Max(a: int, b: int): int { if a < b then b else a }

  /** The limit a cleanup statement works with. */
  function Clamped(limit: int): (r: nat)
    ensures 1 <= r <= SERVICE_MAX_LIMIT
    ensures 1 <= limit <= SERVICE_MAX_LIMIT ==> r == limit
    ensures limit < 1 ==> r == 1
    ensures limit > SERVICE_MAX_LIMIT ==> r == SERVICE_MAX_LIMIT
  {
    Max(1, Min(limit, SERVICE_MAX_LIMIT))
  }

  /** The database as the runner sees it: expired rows, and how many of them the
      open transaction has deleted without having committed. */
  class Database {
    var expired: nat
    var uncommitted: nat

    ghost predicate Valid() reads this { uncommitted <= expired }

    constructor (rows: nat)
      ensures Valid() && expired == rows && uncommitted == 0
    {
      expired, uncommitted := rows, 0;
    }

    /** cleanup_expired_route_states */
    method Delete(limit: int) returns (rows: nat)
      requires Valid() && uncommitted == 0
      modifies this`uncommitted
      ensures Valid() && rows == uncommitted
      ensures rows <= SERVICE_MAX_LIMIT && (expired > 0 ==> rows > 0)
      ensures rows == Min(Clamped(limit), expired)
    {
      rows := Min(Clamped(limit), expired);
      uncommitted := rows;
    }

    method Commit()
      requires Valid()
      modifies this
      ensures Valid() && uncommitted == 0 && expired == old(expired) - old(uncommitted)
    {
      expired := expired - uncommitted;
      uncommitted := 0;
    }

    /** Rolling back, and closing the session, drop what was not committed. */
    method Discard()
      requires Valid()
      modifies this`uncommitted
      ensures Valid() && uncommitted == 0
    {
      uncommitted := 0;
    }
  }

  /** run_route_state_cleanup_once, for every limit and every way its statements can
      raise: a run that returns has committed exactly the rows it reports; one that
      raises leaves every row in place, exactly unless its commit went through. */
  method RunRouteStateCleanupOnce(db: Database, limit: int, faults: Faults) returns (r: RunResult)
    requires db.Valid() && db.uncommitted == 0
    modifies db
    ensures db.Valid() && db.uncommitted == 0
    ensures r.RunFailed? <==> Raises(faults)
    ensures r.RunFailed? <==> faults.open || faults.delete || faults.commit != Acknowledged || faults.close
    ensures Gone(r) == if Takes(faults) then Min(Clamped(limit), old(db.expired)) else 0
    ensures faults.open || faults.delete || faults.commit == Refused ==> Gone(r) == 0
    ensures !faults.open && !faults.delete && faults.commit != Refused ==>
              Gone(r) <= old(db.expired) && (Gone(r) == old(db.expired) || Gone(r) == Clamped(limit))
    ensures old(db.expired) == Gone(r) + db.expired
  {
    if faults.open {
      return RunFailed(0);
    }
    var before := db.expired;
    var deleted := db.Delete(limit);
    var raised := faults.delete;
    if !raised {
      if faults.commit != Refused {
        db.Commit();
      }
      raised := faults.commit != Acknowledged;
    }
    if raised && !faults.rollback {
      db.Discard();
    }
    // The finally clause.
    db.Discard();
    if raised || faults.close {
      return RunFailed(before - db.expired);
    }
    return Deleted(deleted);
  }

  // ---- The bounded loop ------------------------------------------------------

  /** What a turn of the loop meets: what the stop event answers, and which
      statements of the run raise. */
  datatype Turn = Turn(stopSeen: bool, faults: Faults) {
    predicate Interrupts() { stopSeen || Raises(faults) }
  }

  /** The rows a run of the loop takes out of the database. */
  function TakenIn(faults: Faults, expired: nat): (rows: nat)
    ensures rows <= BATCH_LIMIT && rows <= expired
  {
    if Takes(faults) then Min(BATCH_LIMIT, expired) else 0
  }

  function RunOf(faults: Faults, expired: nat): (r: RunResult)
    ensures Gone(r) == TakenIn(faults, expired)
  {
    if Raises(faults) then RunFailed(TakenIn(faults, expired)) else Deleted(TakenIn(faults, expired))
  }

  /** The worker's own steps, iterated to the end of the thread through the turns
      that are left. */
  ghost function Drive(w: Worker, expired: nat, ahead: seq<Turn>): (BatchResult, nat)
    requires w.AtCheck? && w.turn + |ahead| == MAX_BATCHES_PER_RUN
    decreases |ahead|
  {
    var checked := AfterCheck(w, ahead != [] && ahead[0].stopSeen);
    if checked.Finished? then (checked.result, expired) else
    var r := RunOf(ahead[0].faults, expired);
    var next := AfterRun(checked, r);
    if next.Finished? then (next.result, expired - Gone(r)) else Drive(next, expired - Gone(r), ahead[1..])
  }

  /** _run_bounded_cleanup. */
  method RunBoundedCleanup(db: Database, turns: seq<Turn>) returns (r: BatchResult)
    requires db.Valid() && db.uncommitted == 0 && |turns| == MAX_BATCHES_PER_RUN
    modifies db
    ensures db.Valid() && db.uncommitted == 0
    ensures (r, db.expired) == Drive(FRESH, old(db.expired), turns)
  {
    var deletedTotal := 0;
    var i := 0;
    assert turns[0..] == turns;
    while i < MAX_BATCHES_PER_RUN
      invariant 0 <= i <= MAX_BATCHES_PER_RUN && 0 <= deletedTotal
      invariant db.Valid() && db.uncommitted == 0
      invariant Drive(AtCheck(i, deletedTotal), db.expired, turns[i..]) == Drive(FRESH, old(db.expired), turns)
    {
      assert turns[i..][0] == turns[i] && turns[i..][1..] == turns[i + 1..];
      if turns[i].stopSeen {
        break;
      }
      var run := RunRouteStateCleanupOnce(db, BATCH_LIMIT, turns[i].faults);
      if run.RunFailed? {
        return Error;
      }
      deletedTotal := deletedTotal + run.rows;
      if run.rows < BATCH_LIMIT {
        return Total(deletedTotal);
      }
      i := i + 1;
    }
    return Total(deletedTotal);
  }

  // ---- Accounting ------------------------------------------------------------

  /** The first turn at which something other than running out of rows ends the loop. */
  ghost function Interruption(ahead: seq<Turn>): (k: nat)
    ensures k <= |ahead| && (k < |ahead| ==> ahead[k].Interrupts())
    decreases |ahead|
  {
    if ahead == [] || ahead[0].Interrupts() then 0 else 1 + Interruption(ahead[1..])
  }

  /** The rows the loop removes from turn `turn` on, for every combination of
      stop answers and faults: everything, when it fits in the turns before the
      interruption; otherwise exactly the full batches committed before it, and
      whatever an interrupting fault took along. The result is the number removed,
      unless the interruption is a fault. */
  ghost predicate Accounted(turn: nat, expired: nat, ahead: seq<Turn>, result: BatchResult, left: nat) {
    var k := Interruption(ahead);
    var rest := expired - BATCH_LIMIT * k;
    if rest < 0 then result == Total(BATCH_LIMIT * turn + expired) && left == 0
    else if k < |ahead| && !ahead[k].stopSeen then result == Error && left == rest - TakenIn(ahead[k].faults, rest)
    else result == Total(BATCH_LIMIT * (turn + k)) && left == rest
  }

  /** One turn, when nothing interrupts it. */
  lemma DriveTurn(turn: nat, expired: nat, ahead: seq<Turn>)
    requires turn + |ahead| == MAX_BATCHES_PER_RUN && ahead != [] && !ahead[0].Interrupts()
    ensures Drive(AtCheck(turn, BATCH_LIMIT * turn), expired, ahead)
         == if expired < BATCH_LIMIT then (Total(BATCH_LIMIT * turn + expired), 0)
            else Drive(AtCheck(turn + 1, BATCH_LIMIT * (turn + 1)), expired - BATCH_LIMIT, ahead[1..])
  {
    assert RunOf(ahead[0].faults, expired) == Deleted(Min(BATCH_LIMIT, expired));
  }

  /** The loop's end, when its next turn is interrupted or there is none. */
  lemma DriveEnds(turn: nat, expired: nat, ahead: seq<Turn>)
    requires turn + |ahead| == MAX_BATCHES_PER_RUN && (ahead == [] || ahead[0].Interrupts())
    ensures var (result, left) := Drive(AtCheck(turn, BATCH_LIMIT * turn), expired, ahead);
            Accounted(turn, expired, ahead, result, left)
  {
    assert Interruption(ahead) == 0;
  }

  /** Accounting for the turns after this one accounts for this one too. */
  lemma AccountedBefore(turn: nat, expired: nat, ahead: seq<Turn>, result: BatchResult, left: nat)
    requires ahead != [] && !ahead[0].Interrupts() && expired >= BATCH_LIMIT
    requires Accounted(turn + 1, expired - BATCH_LIMIT, ahead[1..], result, left)
    ensures Accounted(turn, expired, ahead, result, left)
  {
    assert Interruption(ahead) == 1 + Interruption(ahead[1..]);
  }

  /** Main result: every bounded cleanup is accounted for. */
  lemma {:induction false} CleanupAccounting(turn: nat, expired: nat, ahead: seq<Turn>)
    requires turn + |ahead| == MAX_BATCHES_PER_RUN
    ensures var (result, left) := Drive(AtCheck(turn, BATCH_LIMIT * turn), expired, ahead);
            Accounted(turn, expired, ahead, result, left)
    decreases |ahead|
  {
    if ahead == [] || ahead[0].Interrupts() {
      DriveEnds(turn, expired, ahead);
    } else {
      DriveTurn(turn, expired, ahead);
      if expired < BATCH_LIMIT {
        assert Interruption(ahead) == 1 + Interruption(ahead[1..]);
      } else {
        CleanupAccounting(turn + 1, expired - BATCH_LIMIT, ahead[1..]);
        var (result, left) := Drive(AtCheck(turn + 1, BATCH_LIMIT * (turn + 1)), expired - BATCH_LIMIT, ahead[1..]);
        AccountedBefore(turn, expired, ahead, result, left);
      }
    }
  }

  /** Rows are conserved: what is gone is the reported total, or a whole number of
      earlier committed batches - and with them the failing batch's own rows,
      exactly when its commit went through before the exception. */
  lemma RowsConserved(expired: nat, turns: seq<Turn>)
    requires |turns| == MAX_BATCHES_PER_RUN
    ensures var (result, left) := Drive(FRESH, expired, turns);
            && left <= expired
            && (result.Total? ==> expired == result.rows + left)
            && (result.Error? ==>
                  exists k: nat :: k < |turns| && Raises(turns[k].faults) && BATCH_LIMIT * k <= expired
                    && expired == BATCH_LIMIT * k + TakenIn(turns[k].faults, expired - BATCH_LIMIT * k) + left)
  {
    CleanupAccounting(0, expired, turns);
    if Drive(FRESH, expired, turns).0.Error? {
      var k := Interruption(turns);
      assert Raises(turns[k].faults) && BATCH_LIMIT * k <= expired;
    }
  }

  /** The concrete case: a lost acknowledgement in the first run. The batch fails,
      and its rows are gone. */
  lemma LostAcknowledgement(expired: nat, turns: seq<Turn>)
    requires |turns| == MAX_BATCHES_PER_RUN
    requires turns[0] == Turn(false, Faults(false, false, Unacknowledged, false, false))
    ensures Drive(FRESH, expired, turns) == (Error, expired - Min(BATCH_LIMIT, expired))
  {
    CleanupAccounting(0, expired, turns);
    assert Interruption(turns) == 0;
  }

  /** No stop request and no exception. */
  ghost predicate Quiet(turns: seq<Turn>) {
    |turns| == MAX_BATCHES_PER_RUN && forall i :: 0 <= i < |turns| ==> !turns[i].Interrupts()
  }

  /** An undisturbed run removes exactly min(expired, 10000) rows and says so. */
  lemma UndisturbedRun(expired: nat, turns: seq<Turn>)
    requires Quiet(turns)
    ensures Drive(FRESH, expired, turns) == (Total(Min(expired, 10_000)), Max(0, expired - 10_000))
  {
    CleanupAccounting(0, expired, turns);
    assert Interruption(turns) == |turns|;
  }

  ghost predicate AllQuiet(runs: seq<seq<Turn>>)
    decreases |runs|
  {
    runs == [] || (Quiet(runs[0]) && AllQuiet(runs[1..]))
  }

  /** What a number of undisturbed runs, one after the other, leave. */
  ghost function AfterRuns(expired: nat, runs: seq<seq<Turn>>): nat
    requires AllQuiet(runs)
    decreases |runs|
  {
    if runs == [] then expired else AfterRuns(Drive(FRESH, expired, runs[0]).1, runs[1..])
  }

  lemma {:induction false} UndisturbedRuns(expired: nat, runs: seq<seq<Turn>>)
    requires AllQuiet(runs)
    ensures AfterRuns(expired, runs) == Max(0, expired - 10_000 * |runs|)
    decreases |runs|
  {
    if runs != [] {
      UndisturbedRun(expired, runs[0]);
      UndisturbedRuns(Drive(FRESH, expired, runs[0]).1, runs[1..]);
    }
  }
}
