// The attribute guards that keep a published city published (models/city.py):
// an ORM instance whose attributes expire at every commit, written by code that
// may or may not be allowed to unpublish.
module PublishedCity {

  /** What may be assigned to is_active. A boolean column takes True, False, 1 and
      0, and gives back True or False; nothing else can be committed. Of the values
      it refuses, PyNone stands for the falsy ones and PyTwo for the truthy ones. */
  datatype ActiveValue = PyTrue | PyFalse | PyNone | PyOne | PyZero | PyTwo

  predicate Truthy(v: ActiveValue) { v.PyTrue? || v.PyOne? || v.PyTwo? }

  predicate Committable(v: ActiveValue) { !v.PyNone? && !v.PyTwo? }

  function Stored(v: ActiveValue): ActiveValue {
    match v
    case PyOne => PyTrue
    case PyZero => PyFalse
    case _ => v
  }

  datatype Attr<+T> = Expired | Loaded(value: T)

  /** One step in the life of an instance in its session. `approved` says whether
      the writing code is one of the two approved callers. */
  datatype Op =
    | WriteLaunch(status: string, approved: bool)
    | WriteActive(active: ActiveValue, approved: bool)
    | AllowStateChange
    | Commit
    | Rollback
    | Refresh
    | ReadAttributes

  const PUBLISHED := "published"
  const NEVER_SET := ""

  // ---- The guard over an always-loaded city ----------------------------------

  /** The simple city: both attributes always in memory, over their stored row. */
  datatype Plain = Plain(launch: string, active: ActiveValue, rowLaunch: string, rowActive: ActiveValue, allowed: bool)

  function PlainStep(p: Plain, op: Op): Plain {
    match op
    case WriteLaunch(v, approved) =>
      if p.launch == PUBLISHED && v != PUBLISHED && !p.allowed && !approved then p else p.(launch := v)
    case WriteActive(v, approved) =>
      if p.active.PyTrue? && v.PyFalse? && p.launch == PUBLISHED && !p.allowed && !approved then p else p.(active := v)
    case AllowStateChange => p.(allowed := true)
    case Commit =>
      if !Committable(p.active) then p.(launch := p.rowLaunch, active := p.rowActive)
      else p.(active := Stored(p.active), rowLaunch := p.launch, rowActive := Stored(p.active))
    case Rollback => p.(launch := p.rowLaunch, active := p.rowActive)
    case Refresh => p.(launch := p.rowLaunch, active := p.rowActive)
    case ReadAttributes => p
  }

  function PlainRun(p: Plain, ops: seq<Op>): Plain
    decreases |ops|
  {
    if ops == [] then p else PlainRun(PlainStep(p, ops[0]), ops[1..])
  }

  // ---- The instance as the code has it ---------------------------------------

  /** A City in a session without autoflush. The row is what is committed; an
      attribute is either loaded or not (expired, or never set). An instance that
      was never committed is not persistent and has no row to reload. */
  class City {
    var persistent: bool
    var launchStatus: Attr<string>
    var isActive: Attr<ActiveValue>
    var rowLaunch: string
    var rowActive: ActiveValue
    var allowFlag: bool

    /** The values a read would give, whatever happens to be loaded. An attribute of
        a new instance that was never set has no value. */
    ghost function View(): Plain
      reads this
    {
      Plain(if launchStatus.Loaded? then launchStatus.value else if persistent then rowLaunch else NEVER_SET,
            if isActive.Loaded? then isActive.value else if persistent then rowActive else PyNone,
            rowLaunch, rowActive, allowFlag)
    }

    /** A row holds a boolean. */
    ghost predicate Valid()
      reads this
    {
      rowActive.PyTrue? || rowActive.PyFalse?
    }

    constructor FromRow(launch: string, active: bool)
      ensures Valid() && persistent && !allowFlag && launchStatus.Expired? && isActive.Expired?
      ensures rowLaunch == launch && rowActive == if active then PyTrue else PyFalse
    {
      persistent, launchStatus, isActive := true, Expired, Expired;
      rowLaunch, rowActive, allowFlag := launch, if active then PyTrue else PyFalse, false;
    }

    /** An instance that has not been added to a session, with nothing set. */
    constructor Transient()
      ensures Valid() && !persistent && !allowFlag && launchStatus.Expired? && isActive.Expired?
    {
      persistent, launchStatus, isActive := false, Expired, Expired;
      rowLaunch, rowActive, allowFlag := NEVER_SET, PyFalse, false;
    }

    /** Reading an expired attribute loads every expired attribute from the row. */
    method LoadExpired()
      requires Valid() && persistent
      modifies this`launchStatus, this`isActive
      ensures Valid() && View() == old(View()) && launchStatus.Loaded? && isActive.Loaded?
    {
      if launchStatus.Expired? { launchStatus := Loaded(rowLaunch); }
      if isActive.Expired? { isActive := Loaded(rowActive); }
    }

    /** allow_city_product_state_change */
    method AllowCityProductStateChange()
      requires Valid()
      modifies this`allowFlag
      ensures Valid() && View() == PlainStep(old(View()), AllowStateChange)
      ensures View() == old(View()).(allowed := true)
    {
      allowFlag := true;
    }

    /** _resolve_committed_value, for launch_status. */
    method ResolveCommittedLaunch(oldvalue: Attr<string>) returns (resolved: Attr<string>)
      requires Valid() && oldvalue == launchStatus
      modifies this`launchStatus, this`isActive
      ensures Valid() && View() == old(View())
      ensures persistent ==> resolved == Loaded(View().launch)
      ensures !persistent ==> resolved == oldvalue && unchanged(this)
    {
      if oldvalue.Loaded? {
        return oldvalue;
      }
      if !persistent {
        return oldvalue;
      }
      LoadExpired();
      return launchStatus;
    }

    /** _resolve_committed_value, for is_active. */
    method ResolveCommittedActive(oldvalue: Attr<ActiveValue>) returns (resolved: Attr<ActiveValue>)
      requires Valid() && oldvalue == isActive
      modifies this`launchStatus, this`isActive
      ensures Valid() && View() == old(View())
      ensures persistent ==> resolved == Loaded(View().active)
      ensures !persistent ==> resolved == oldvalue && unchanged(this)
    {
      if oldvalue.Loaded? {
        return oldvalue;
      }
      if !persistent {
        return oldvalue;
      }
      LoadExpired();
      return isActive;
    }

    /** Assigning launch_status: the old value the session has at hand goes to
        protect_published_city_launch_status, whose result is assigned. A new
        instance whose attribute was never set takes any value. */
    method SetLaunchStatus(status: string, approved: bool)
      requires Valid()
      modifies this`launchStatus, this`isActive
      ensures Valid()
      ensures View() == PlainStep(old(View()), WriteLaunch(status, approved))
      ensures View() == old(View()).(launch := View().launch)
      ensures View().launch == status || View().launch == old(View()).launch
      ensures View().launch != status
         <==> (&& old(View()).launch == "published" && status != "published"
               && !old(View()).allowed && !approved)
      ensures launchStatus.Loaded? && (!persistent ==> isActive == old(isActive))
    {
      var oldvalue := ResolveCommittedLaunch(launchStatus);
      var result := status;
      if oldvalue == Loaded(PUBLISHED) && status != PUBLISHED {
        if !(allowFlag || approved) {
          result := oldvalue.value;
        }
      }
      launchStatus := Loaded(result);
    }

    /** Assigning is_active, through protect_published_city_is_active. */
    method SetIsActive(active: ActiveValue, approved: bool)
      requires Valid()
      modifies this`launchStatus, this`isActive
      ensures Valid()
      ensures View() == PlainStep(old(View()), WriteActive(active, approved))
      ensures View() == old(View()).(active := View().active)
      ensures View().active == active || View().active == old(View()).active
      ensures View().active != active
         <==> (&& old(View()).launch == "published" && old(View()).active == PyTrue && active == PyFalse
               && !old(View()).allowed && !approved)
      ensures isActive.Loaded? && (!persistent ==> launchStatus == old(launchStatus))
    {
      var oldvalue := ResolveCommittedActive(isActive);
      var result := active;
      if oldvalue == Loaded(PyTrue) && active.PyFalse? {
        if launchStatus.Expired? && persistent {
          LoadExpired();
        }
        if launchStatus == Loaded(PUBLISHED) && !(allowFlag || approved) {
          result := oldvalue.value;
        }
      }
      isActive := Loaded(result);
    }

    /** Session.commit: flush what is loaded, then expire everything. A flush that
        the database refuses rolls back. */
    method CommitSession()
      requires Valid() && persistent
      modifies this`launchStatus, this`isActive, this`rowLaunch, this`rowActive
      ensures Valid() && View() == PlainStep(old(View()), Commit) && launchStatus.Expired? && isActive.Expired?
      ensures View().allowed == old(View()).allowed
      ensures View().rowLaunch == View().launch && View().rowActive == View().active
      ensures if old(View()).active in {PyTrue, PyFalse, PyOne, PyZero}
              then && View().launch == old(View()).launch
                   && (View().active == PyTrue <==> old(View()).active in {PyTrue, PyOne})
              else View().launch == old(rowLaunch) && View().active == old(rowActive)
    {
      if isActive.Expired? || Committable(isActive.value) {
        if launchStatus.Loaded? { rowLaunch := launchStatus.value; }
        if isActive.Loaded? { rowActive := Stored(isActive.value); }
      }
      launchStatus, isActive := Expired, Expired;
    }

    method RollbackSession()
      requires Valid() && persistent
      modifies this`launchStatus, this`isActive
      ensures Valid() && View() == PlainStep(old(View()), Rollback) && launchStatus.Expired? && isActive.Expired?
      ensures View() == old(View()).(launch := rowLaunch, active := rowActive)
    {
      launchStatus, isActive := Expired, Expired;
    }

    method RefreshFromRow()
      requires Valid() && persistent
      modifies this`launchStatus, this`isActive
      ensures Valid() && View() == PlainStep(old(View()), Refresh)
      ensures View() == old(View()).(launch := rowLaunch, active := rowActive)
    {
      launchStatus, isActive := Loaded(rowLaunch), Loaded(rowActive);
    }
  }

  method Perform(city: City, op: Op)
    requires city.Valid() && city.persistent
    modifies city
    ensures city.Valid() && city.persistent && city.View() == PlainStep(old(city.View()), op)
  {
    match op
    case WriteLaunch(status, approved) => city.SetLaunchStatus(status, approved);
    case WriteActive(active, approved) => city.SetIsActive(active, approved);
    case AllowStateChange => city.AllowCityProductStateChange();
    case Commit => city.CommitSession();
    case Rollback => city.RollbackSession();
    case Refresh => city.RefreshFromRow();
    case ReadAttributes => city.LoadExpired();
  }

  /** Main result: over any history - approved and unapproved writes, commits that
      expire, rollbacks, refreshes and reads - the guard that reloads expired
      attributes decides every write as a guard over an always-loaded city would. */
  method PerformAll(city: City, ops: seq<Op>)
    requires city.Valid() && city.persistent
    modifies city
    ensures city.Valid() && city.persistent && city.View() == PlainRun(old(city.View()), ops)
  {
    for i := 0 to |ops|
      invariant city.Valid() && city.persistent
      invariant PlainRun(city.View(), ops[i..]) == PlainRun(old(city.View()), ops)
    {
      assert ops[i..][0] == ops[i] && ops[i..][1..] == ops[i + 1..];
      Perform(city, ops[i]);
    }
  }

  // ---- What the guard protects -----------------------------------------------

  /** Published and active, in memory and in the row. */
  ghost predicate OnAir(p: Plain) {
    p.launch == PUBLISHED && Truthy(p.active) && p.rowLaunch == PUBLISHED && p.rowActive.PyTrue?
  }

  /** No approval anywhere, and is_active only ever assigned values of `values`. */
  ghost predicate Unapproved(ops: seq<Op>, values: set<ActiveValue>) {
    forall op :: op in ops ==>
      && !op.AllowStateChange?
      && (op.WriteLaunch? ==> !op.approved)
      && (op.WriteActive? ==> !op.approved && op.active in values)
  }

  lemma {:induction false} BooleanWritesProtected(p: Plain, ops: seq<Op>)
    requires OnAir(p) && p.active.PyTrue? && !p.allowed && Unapproved(ops, {PyTrue, PyFalse})
    ensures OnAir(PlainRun(p, ops)) && PlainRun(p, ops).active.PyTrue?
    decreases |ops|
  {
    if ops != [] {
      assert ops[0] in ops && forall op :: op in ops[1..] ==> op in ops;
      BooleanWritesProtected(PlainStep(p, ops[0]), ops[1..]);
    }
  }

  lemma {:induction false} TruthyWritesHarmless(p: Plain, ops: seq<Op>)
    requires OnAir(p) && !p.allowed && Unapproved(ops, {PyTrue, PyOne, PyTwo})
    ensures OnAir(PlainRun(p, ops))
    decreases |ops|
  {
    if ops != [] {
      assert ops[0] in ops && forall op :: op in ops[1..] ==> op in ops;
      TruthyWritesHarmless(PlainStep(p, ops[0]), ops[1..]);
    }
  }

  /** How it is defeated: any other truthy value still counts as active, and then
      False is let through. */
  lemma OneOpensTheGuard(p: Plain, v: ActiveValue)
    requires OnAir(p) && !p.allowed && Truthy(v) && v != PyTrue
    ensures OnAir(PlainRun(p, [WriteActive(v, false)]))
    ensures !OnAir(PlainRun(p, [WriteActive(v, false), WriteActive(PyFalse, false)]))
  {
    var one, two := [WriteActive(v, false)], [WriteActive(v, false), WriteActive(PyFalse, false)];
    assert one[1..] == [] && two[1..] == [WriteActive(PyFalse, false)] && two[1..][1..] == [];
    assert PlainRun(PlainStep(p, one[0]), one[1..]).active == v;
    var q := PlainStep(p, two[0]);
    assert PlainRun(q, two[1..]) == PlainStep(q, two[1]);
  }

  lemma FalsyTakesOffAir(p: Plain, v: ActiveValue)
    requires OnAir(p) && !p.allowed && !Truthy(v) && v != PyFalse
    ensures !OnAir(PlainRun(p, [WriteActive(v, false)]))
  {
    var ops := [WriteActive(v, false)];
    assert PlainRun(PlainStep(p, ops[0]), ops[1..]).active == v;
  }

  /** Main result: a city committed as published and active stays so under every
      unapproved history, exactly when is_active is only assigned booleans, or
      only truthy values. The guards test `is True` and `is False`, so None and 0
      pass, and a 1 (or any other truthy value) makes the next False pass. */
  lemma ProtectionExact(p: Plain, values: set<ActiveValue>)
    requires OnAir(p) && p.active.PyTrue? && !p.allowed
    ensures (forall ops :: Unapproved(ops, values) ==> OnAir(PlainRun(p, ops)))
       <==> (values <= {PyTrue, PyFalse} || forall v :: v in values ==> Truthy(v))
  {
    if values <= {PyTrue, PyFalse} {
      forall ops | Unapproved(ops, values) ensures OnAir(PlainRun(p, ops)) { BooleanWritesProtected(p, ops); }
    } else if forall v :: v in values ==> Truthy(v) {
      forall ops | Unapproved(ops, values) ensures OnAir(PlainRun(p, ops)) { TruthyWritesHarmless(p, ops); }
    } else if v :| v in values && !Truthy(v) && v != PyFalse {
      FalsyTakesOffAir(p, v);
      assert Unapproved([WriteActive(v, false)], values);
    } else {
      var v :| v in values && v !in {PyTrue, PyFalse};
      OneOpensTheGuard(p, v);
      assert Unapproved([WriteActive(v, false), WriteActive(PyFalse, false)], values);
    }
  }

  /** launch_status alone needs no condition on what is written to is_active. */
  lemma {:induction false} LaunchStatusProtected(p: Plain, ops: seq<Op>, values: set<ActiveValue>)
    requires p.launch == PUBLISHED && p.rowLaunch == PUBLISHED && !p.allowed && Unapproved(ops, values)
    ensures PlainRun(p, ops).launch == PUBLISHED && PlainRun(p, ops).rowLaunch == PUBLISHED
    decreases |ops|
  {
    if ops != [] {
      assert ops[0] in ops && forall op :: op in ops[1..] ==> op in ops;
      LaunchStatusProtected(PlainStep(p, ops[0]), ops[1..], values);
    }
  }

  /** Approval is sticky on the instance and lets every later write through. */
  lemma {:induction false} ApprovalIsSticky(p: Plain, ops: seq<Op>)
    requires p.allowed
    ensures PlainRun(p, ops).allowed
    ensures forall v, w ::
              var written := PlainStep(PlainStep(PlainRun(p, ops), WriteLaunch(v, false)), WriteActive(w, false));
              written.launch == v && written.active == w
    decreases |ops|
  {
    if ops != [] {
      ApprovalIsSticky(PlainStep(p, ops[0]), ops[1..]);
    }
  }
}
