// Dependency-gated feature flags (core/feature_flags.py), over an arbitrary
// dependency table and then over the shipped one.
module FeatureFlags {

  /** One row of _FLAG_DEPENDENCIES. A table keeps the dict's insertion order. */
  datatype Entry<F> = Entry(flag: F, dependencies: seq<F>)

  type Table<F> = seq<Entry<F>>

  /** A dict has one row per key. */
  ghost predicate UniqueKeys<F>(table: Table<F>) {
    forall i, j :: 0 <= i < j < |table| ==> table[i].flag != table[j].flag
  }

  /** feature_flag_dependencies: the flag's row, or the empty tuple. */
  function Dependencies<F(==)>(table: Table<F>, flag: F): seq<F> {
    if table == [] then [] else if table[0].flag == flag then table[0].dependencies else Dependencies(table[1..], flag)
  }

  lemma {:induction false} SmallerSet<T>(a: set<T>, b: set<T>)
    requires a < b
    ensures |a| < |b|
    decreases a
  {
    var x :| x in b && x !in a;
    if a == {} {
      assert |b| > 0;
    } else {
      var y :| y in a;
      SmallerSet(a - {y}, b - {y});
    }
  }

  /** is_feature_enabled: `on` is the set of flags configured True. The recursion
      ends because only configured flags are ever added to `seen`. */
  predicate IsEnabled<F(==)>(table: Table<F>, on: set<F>, flag: F, seen: set<F>)
    decreases |on - seen|
  {
    if flag in seen then false
    else if flag !in on then false
    else
      assert on - (seen + {flag}) < on - seen by { assert flag in on - seen; }
      SmallerSet(on - (seen + {flag}), on - seen);
      forall d | d in Dependencies(table, flag) :: IsEnabled(table, on, d, seen + {flag})
  }

  // ---- Reachability ----------------------------------------------------------

  /** A chain of dependencies: each flag depends directly on the next. */
  ghost predicate IsChain<F(!new)>(table: Table<F>, chain: seq<F>) {
    forall i :: 0 <= i < |chain| - 1 ==> chain[i + 1] in Dependencies(table, chain[i])
  }

  ghost predicate ChainFrom<F(!new)>(table: Table<F>, flag: F, chain: seq<F>) {
    |chain| > 0 && chain[0] == flag && IsChain(table, chain)
  }

  ghost predicate NoRepeats<F(!new)>(chain: seq<F>) {
    forall i, j :: 0 <= i < j < |chain| ==> chain[i] != chain[j]
  }

  ghost predicate Reaches<F(!new)>(table: Table<F>, from: F, to: F) {
    exists chain :: ChainFrom(table, from, chain) && chain[|chain| - 1] == to
  }

  /** `flag` depends on itself, through one or more steps. */
  ghost predicate OnCycle<F(!new)>(table: Table<F>, flag: F) {
    exists chain :: ChainFrom(table, flag, chain) && |chain| > 1 && chain[|chain| - 1] == flag
  }

  ghost predicate GoodChain<F(!new)>(on: set<F>, seen: set<F>, chain: seq<F>) {
    NoRepeats(chain) && forall x :: x in chain ==> x in on && x !in seen
  }

  lemma {:induction false} EnabledHasGoodChains<F(!new)>(table: Table<F>, on: set<F>, flag: F, seen: set<F>,
                                                         chain: seq<F>)
    requires IsEnabled(table, on, flag, seen) && ChainFrom(table, flag, chain)
    ensures GoodChain(on, seen, chain)
    decreases |chain|
  {
    if |chain| > 1 {
      assert chain[0 + 1] in Dependencies(table, chain[0]);
      assert ChainFrom(table, chain[1], chain[1..]);
      EnabledHasGoodChains(table, on, chain[1], seen + {flag}, chain[1..]);
      assert forall x :: x in chain ==> x == flag || x in chain[1..];
    }
  }

  lemma {:induction false} BadChain<F(!new)>(table: Table<F>, on: set<F>, flag: F, seen: set<F>) returns (chain: seq<F>)
    requires !IsEnabled(table, on, flag, seen)
    ensures ChainFrom(table, flag, chain) && !GoodChain(on, seen, chain)
    decreases |on - seen|
  {
    chain := [flag];
    assert flag in chain;
    if flag in on && flag !in seen {
      var d :| d in Dependencies(table, flag) && !IsEnabled(table, on, d, seen + {flag});
      assert on - (seen + {flag}) < on - seen by { assert flag in on - seen; }
      SmallerSet(on - (seen + {flag}), on - seen);
      var rest := BadChain(table, on, d, seen + {flag});
      chain := [flag] + rest;
      assert forall x :: x in rest ==> x in chain;
      assert chain[1..] == rest;
      if GoodChain(on, seen, chain) {
        assert GoodChain(on, seen + {flag}, rest) by {
          forall x | x in rest ensures x in on && x !in seen + {flag} {
            var i :| 0 <= i < |rest| && rest[i] == x;
            assert chain[i + 1] == x && chain[0] == flag;
          }
        }
      }
    }
  }

  lemma ChainMembersReachable<F(!new)>(table: Table<F>, flag: F, chain: seq<F>, k: nat)
    requires ChainFrom(table, flag, chain) && k < |chain|
    ensures Reaches(table, flag, chain[k])
  {
    assert ChainFrom(table, flag, chain[..k + 1]);
    assert chain[..k + 1][|chain[..k + 1]| - 1] == chain[k];
  }

  lemma JoinChains<F(!new)>(table: Table<F>, flag: F, chain: seq<F>, loop: seq<F>)
    requires ChainFrom(table, flag, chain) && |loop| > 1 && ChainFrom(table, chain[|chain| - 1], loop)
    ensures ChainFrom(table, flag, chain + loop[1..])
  {
    var both := chain + loop[1..];
    forall i | 0 <= i < |both| - 1 ensures both[i + 1] in Dependencies(table, both[i]) {
      if i >= |chain| - 1 {
        var k := i - (|chain| - 1);
        assert both[i] == loop[k] && both[i + 1] == loop[k + 1];
      }
    }
  }

  /** Main result: a flag is effectively on exactly when every flag it depends on,
      directly or not, itself included, is configured on, and none of them
      depends on itself. */
  lemma EnabledIffReachableConfigured<F(!new)>(table: Table<F>, on: set<F>, flag: F)
    ensures IsEnabled(table, on, flag, {}) <==>
            forall g :: Reaches(table, flag, g) ==> g in on && !OnCycle(table, g)
  {
    if IsEnabled(table, on, flag, {}) {
      forall g | Reaches(table, flag, g) ensures g in on && !OnCycle(table, g) {
        var chain :| ChainFrom(table, flag, chain) && chain[|chain| - 1] == g;
        EnabledHasGoodChains(table, on, flag, {}, chain);
        assert g in chain;
        if OnCycle(table, g) {
          var loop :| ChainFrom(table, g, loop) && |loop| > 1 && loop[|loop| - 1] == g;
          var both := chain + loop[1..];
          assert both[|chain| - 1] == both[|both| - 1] == g;
          JoinChains(table, flag, chain, loop);
          EnabledHasGoodChains(table, on, flag, {}, both);
          assert false;
        }
      }
    } else {
      var chain := BadChain(table, on, flag, {});
      if x :| x in chain && x !in on {
        var k :| 0 <= k < |chain| && chain[k] == x;
        ChainMembersReachable(table, flag, chain, k);
      } else {
        var i, j :| 0 <= i < j < |chain| && chain[i] == chain[j];
        ChainMembersReachable(table, flag, chain, i);
        var loop := chain[i..j + 1];
        assert ChainFrom(table, chain[i], loop) && loop[|loop| - 1] == chain[j];
      }
    }
  }

  // ---- The enabled set is a least fixpoint -----------------------------------

  ghost predicate Enabled<F(!new)>(table: Table<F>, on: set<F>, flag: F) { IsEnabled(table, on, flag, {}) }

  ghost predicate Gate<F(!new)>(table: Table<F>, on: set<F>, s: iset<F>, flag: F) {
    flag in on && forall d :: d in Dependencies(table, flag) ==> d in s
  }

  lemma {:induction false} EnabledInClosedSet<F(!new)>(table: Table<F>, on: set<F>, flag: F, seen: set<F>,
                                                       closed: iset<F>)
    requires IsEnabled(table, on, flag, seen)
    requires forall f :: Gate(table, on, closed, f) ==> f in closed
    ensures flag in closed
    decreases |on - seen|
  {
    assert on - (seen + {flag}) < on - seen by { assert flag in on - seen; }
    SmallerSet(on - (seen + {flag}), on - seen);
    forall d | d in Dependencies(table, flag) ensures d in closed {
      EnabledInClosedSet(table, on, d, seen + {flag}, closed);
    }
    assert Gate(table, on, closed, flag);
  }

  lemma ReachesThrough<F(!new)>(table: Table<F>, flag: F, d: F, g: F)
    requires d in Dependencies(table, flag) && Reaches(table, d, g)
    ensures Reaches(table, flag, g)
  {
    var chain :| ChainFrom(table, d, chain) && chain[|chain| - 1] == g;
    var longer := [flag] + chain;
    assert ChainFrom(table, flag, longer) && longer[|longer| - 1] == g;
  }

  lemma GateIffEnabled<F(!new)>(table: Table<F>, on: set<F>, flag: F)
    ensures Enabled(table, on, flag) <==>
            flag in on && forall d :: d in Dependencies(table, flag) ==> Enabled(table, on, d)
  {
    EnabledIffReachableConfigured(table, on, flag);
    if Enabled(table, on, flag) {
      forall d | d in Dependencies(table, flag) ensures Enabled(table, on, d) {
        EnabledIffReachableConfigured(table, on, d);
        forall g | Reaches(table, d, g) ensures Reaches(table, flag, g) { ReachesThrough(table, flag, d, g); }
      }
    } else if flag in on && forall d :: d in Dependencies(table, flag) ==> Enabled(table, on, d) {
      var g :| Reaches(table, flag, g) && !(g in on && !OnCycle(table, g));
      var chain :| ChainFrom(table, flag, chain) && chain[|chain| - 1] == g;
      if |chain| > 1 {
        var d := chain[1];
        assert d in Dependencies(table, chain[0]);
        EnabledIffReachableConfigured(table, on, d);
        assert ChainFrom(table, d, chain[1..]) && chain[1..][|chain[1..]| - 1] == g;
        assert Reaches(table, d, g);
      } else {
        var loop :| ChainFrom(table, flag, loop) && |loop| > 1 && loop[|loop| - 1] == flag;
        var d := loop[1];
        assert d in Dependencies(table, loop[0]);
        EnabledIffReachableConfigured(table, on, d);
        assert ChainFrom(table, d, loop[1..]) && loop[1..][|loop[1..]| - 1] == flag;
        assert Reaches(table, d, flag);
      }
    }
  }

  /** The set of effective flags satisfies "configured, and all dependencies
      effective" - although the code threads a path through its recursion - and
      every set closed under that rule contains it. */
  lemma EnabledIsLeastFixpoint<F(!new)>(table: Table<F>, on: set<F>)
    ensures var effective := iset f: F | Enabled(table, on, f);
            && (forall f :: f in effective <==> Gate(table, on, effective, f))
            && (forall closed: iset<F> ::
                  (forall f :: Gate(table, on, closed, f) ==> f in closed) ==> effective <= closed)
  {
    var effective := iset f: F | Enabled(table, on, f);
    forall f ensures f in effective <==> Gate(table, on, effective, f) {
      GateIffEnabled(table, on, f);
    }
    forall closed: iset<F> | forall f :: Gate(table, on, closed, f) ==> f in closed ensures effective <= closed {
      forall f | f in effective ensures f in closed {
        EnabledInClosedSet(table, on, f, {}, closed);
      }
    }
  }

  /** Turning one more setting on never turns an effective flag off. */
  lemma EnablingIsMonotone<F(!new)>(table: Table<F>, on: set<F>, more: set<F>, flag: F)
    requires on <= more && Enabled(table, on, flag)
    ensures Enabled(table, more, flag)
  {
    EnabledIffReachableConfigured(table, on, flag);
    EnabledIffReachableConfigured(table, more, flag);
  }

  // ---- The configuration validator -------------------------------------------

  /** One line of the error message: `flag` requires `dependency` to be enabled. */
  datatype Violation<F> = Violation(flag: F, dependency: F)

  ghost predicate IsViolation<F(!new)>(table: Table<F>, on: set<F>, v: Violation<F>) {
    v.flag in on && v.dependency in Dependencies(table, v.flag) && v.dependency !in on
  }

  ghost predicate Consistent<F(!new)>(table: Table<F>, on: set<F>) {
    forall f, d :: f in on && d in Dependencies(table, f) ==> d in on
  }

  lemma {:induction false} DependenciesOfRow<F(!new)>(table: Table<F>, i: nat)
    requires UniqueKeys(table) && i < |table|
    ensures Dependencies(table, table[i].flag) == table[i].dependencies
    decreases |table|
  {
    if i > 0 {
      assert table[0].flag != table[i].flag;
      assert table[1..][i - 1] == table[i];
      DependenciesOfRow(table[1..], i - 1);
    }
  }

  lemma {:induction false} DependenciesHaveRow<F(!new)>(table: Table<F>, flag: F)
    ensures (exists i :: 0 <= i < |table| && table[i].flag == flag) || Dependencies(table, flag) == []
    decreases |table|
  {
    if table != [] && table[0].flag != flag {
      DependenciesHaveRow(table[1..], flag);
      if i :| 0 <= i < |table[1..]| && table[1..][i].flag == flag {
        assert table[i + 1].flag == flag;
      }
    }
  }

  lemma ConsistentIffNoViolation<F(!new)>(table: Table<F>, on: set<F>)
    ensures Consistent(table, on) <==> forall v :: !IsViolation(table, on, v)
  {
    if !Consistent(table, on) {
      var f, d :| f in on && d in Dependencies(table, f) && d !in on;
      assert IsViolation(table, on, Violation(f, d));
    }
  }

  /** validate_feature_flag_configuration: the errors are exactly the configured
      flags with a dependency that is not, and the call raises when there are any. */
  method Validate<F(==,!new)>(table: Table<F>, on: set<F>) returns (errors: seq<Violation<F>>)
    requires UniqueKeys(table)
    ensures forall v :: v in errors <==> IsViolation(table, on, v)
    ensures errors == [] <==> Consistent(table, on)
  {
    errors := [];
    for i := 0 to |table|
      invariant forall v :: v in errors ==> IsViolation(table, on, v)
      invariant forall k, d :: 0 <= k < i && table[k].flag in on && d in table[k].dependencies && d !in on
                  ==> Violation(table[k].flag, d) in errors
    {
      if table[i].flag !in on {
        continue;
      }
      DependenciesOfRow(table, i);
      var dependencies := table[i].dependencies;
      for j := 0 to |dependencies|
        invariant forall v :: v in errors ==> IsViolation(table, on, v)
        invariant forall k, d :: 0 <= k < i && table[k].flag in on && d in table[k].dependencies && d !in on
                    ==> Violation(table[k].flag, d) in errors
        invariant forall k :: 0 <= k < j && dependencies[k] !in on
                    ==> Violation(table[i].flag, dependencies[k]) in errors
      {
        if dependencies[j] !in on {
          errors := errors + [Violation(table[i].flag, dependencies[j])];
        }
      }
    }
    forall v | IsViolation(table, on, v) ensures v in errors {
      DependenciesHaveRow(table, v.flag);
      var i :| 0 <= i < |table| && table[i].flag == v.flag;
      DependenciesOfRow(table, i);
    }
    ConsistentIffNoViolation(table, on);
    if errors != [] {
      assert errors[0] in errors;
    }
  }

  lemma {:induction false} ConsistentChain<F(!new)>(table: Table<F>, on: set<F>, chain: seq<F>, k: nat)
    requires Consistent(table, on) && IsChain(table, chain) && k < |chain| && chain[0] in on
    ensures chain[k] in on
    decreases k
  {
    if k > 0 {
      ConsistentChain(table, on, chain, k - 1);
      assert chain[(k - 1) + 1] in Dependencies(table, chain[k - 1]);
    }
  }

  /** What the validator says about the running system, on every table: it accepts
      and no configured flag depends on itself, exactly when the effective matrix
      is the raw settings. */
  lemma ValidatorMeaning<F(!new)>(table: Table<F>, on: set<F>)
    ensures (forall f :: Enabled(table, on, f) <==> f in on)
       <==> (Consistent(table, on) && forall f :: f in on ==> !OnCycle(table, f))
  {
    if forall f :: Enabled(table, on, f) <==> f in on {
      forall f | f in on ensures !OnCycle(table, f) {
        assert Enabled(table, on, f);
        EnabledIffReachableConfigured(table, on, f);
        ChainMembersReachable(table, f, [f], 0);
      }
      forall f, d | f in on && d in Dependencies(table, f) ensures d in on {
        assert Enabled(table, on, f);
        GateIffEnabled(table, on, f);
        assert Enabled(table, on, d);
      }
    }
    if Consistent(table, on) && forall f :: f in on ==> !OnCycle(table, f) {
      forall f ensures Enabled(table, on, f) <==> f in on {
        EnabledIffReachableConfigured(table, on, f);
        ChainMembersReachable(table, f, [f], 0);
        if f in on {
          forall g | Reaches(table, f, g) ensures g in on {
            var chain :| ChainFrom(table, f, chain) && chain[|chain| - 1] == g;
            ConsistentChain(table, on, chain, |chain| - 1);
          }
        }
      }
    }
  }

  /** On an acyclic table the validator accepts exactly when no flag's effective
      state differs from its setting. */
  lemma ValidatorExactOnAcyclic<F(!new)>(table: Table<F>, on: set<F>)
    requires forall f :: !OnCycle(table, f)
    ensures Consistent(table, on) <==> forall f :: Enabled(table, on, f) <==> f in on
  {
    ValidatorMeaning(table, on);
  }

  /** A configured flag with an unconfigured dependency, however far down, has a
      direct violation on the way there. */
  lemma {:induction false} ViolationOnTheWay<F(!new)>(table: Table<F>, on: set<F>, chain: seq<F>) returns (k: nat)
    requires |chain| > 0 && IsChain(table, chain) && chain[0] in on && chain[|chain| - 1] !in on
    ensures k + 1 < |chain| && IsViolation(table, on, Violation(chain[k], chain[k + 1]))
    decreases |chain|
  {
    assert chain[0 + 1] in Dependencies(table, chain[0]);
    if chain[1] !in on {
      return 0;
    }
    var j := ViolationOnTheWay(table, on, chain[1..]);
    return j + 1;
  }

  /** With a cycle the validator can accept a setting that never takes effect. */
  lemma CycleEscapesValidator()
    ensures var table, on := [Entry(1, [2]), Entry(2, [1])], {1, 2};
            UniqueKeys(table) && Consistent(table, on) && !Enabled(table, on, 1) && !Enabled(table, on, 2)
  {
    var table, on := [Entry(1, [2]), Entry(2, [1])], {1, 2};
    assert Dependencies(table, 1) == [2];
    assert Dependencies(table[1..], 2) == [1];
    assert Dependencies(table, 2) == [1];
    assert 2 in Dependencies(table, 1) && 1 in Dependencies(table, 2);
    assert !IsEnabled(table, on, 1, {} + {1} + {2}) && !IsEnabled(table, on, 2, {} + {2} + {1});
    assert !IsEnabled(table, on, 2, {} + {1}) && !IsEnabled(table, on, 1, {} + {2});
  }

  // ---- Showing that a table is acyclic ---------------------------------------

  /** A rank that falls along every dependency. */
  ghost predicate Ranked<F(!new)>(table: Table<F>, rank: F -> nat) {
    forall f, d :: d in Dependencies(table, f) ==> rank(d) < rank(f)
  }

  lemma {:induction false} RankFallsAlongChain<F(!new)>(table: Table<F>, rank: F -> nat, chain: seq<F>, k: nat)
    requires Ranked(table, rank) && IsChain(table, chain) && 0 < k < |chain|
    ensures rank(chain[k]) < rank(chain[0])
    decreases k
  {
    assert chain[(k - 1) + 1] in Dependencies(table, chain[k - 1]);
    if k > 1 {
      RankFallsAlongChain(table, rank, chain, k - 1);
    }
  }

  lemma RankedHasNoCycle<F(!new)>(table: Table<F>, rank: F -> nat, flag: F)
    requires Ranked(table, rank)
    ensures !OnCycle(table, flag)
  {
    if OnCycle(table, flag) {
      var chain :| ChainFrom(table, flag, chain) && |chain| > 1 && chain[|chain| - 1] == flag;
      RankFallsAlongChain(table, rank, chain, |chain| - 1);
      assert false;
    }
  }

  // ---- The shipped table -----------------------------------------------------

  datatype FeatureFlag =
    | AuthEnabled | ProfileEnabled | FavoritesEnabled | SavedRoutesEnabled | RouteHistoryEnabled | ReviewsEnabled
    | PublicReviewsEnabled | ReviewVotesEnabled | UserPhotosEnabled | SuggestionsEnabled | ModerationEnabled
    | TelegramIdentityEnabled | AccountLinkingEnabled

  const FLAG_DEPENDENCIES: Table<FeatureFlag> := [
    Entry(PublicReviewsEnabled, [ReviewsEnabled, ModerationEnabled]),
    Entry(ReviewVotesEnabled, [PublicReviewsEnabled]),
    Entry(UserPhotosEnabled, [ModerationEnabled]),
    Entry(AccountLinkingEnabled, [TelegramIdentityEnabled]),
    Entry(ProfileEnabled, [AuthEnabled]),
    Entry(RouteHistoryEnabled, [AuthEnabled])]

  function ShippedRank(f: FeatureFlag): nat {
    match f
    case ReviewVotesEnabled => 2
    case PublicReviewsEnabled | UserPhotosEnabled | AccountLinkingEnabled | ProfileEnabled | RouteHistoryEnabled => 1
    case _ => 0
  }

  /** The shipped table by flag: what the lookup finds. */
  function ShippedDependencies(f: FeatureFlag): seq<FeatureFlag> {
    match f
    case PublicReviewsEnabled => [ReviewsEnabled, ModerationEnabled]
    case ReviewVotesEnabled => [PublicReviewsEnabled]
    case UserPhotosEnabled => [ModerationEnabled]
    case AccountLinkingEnabled => [TelegramIdentityEnabled]
    case ProfileEnabled | RouteHistoryEnabled => [AuthEnabled]
    case _ => []
  }

  lemma ShippedKeysUnique()
    ensures UniqueKeys(FLAG_DEPENDENCIES)
  {
  }

  lemma ShippedWithoutRow(f: FeatureFlag)
    requires ShippedDependencies(f) == []
    ensures Dependencies(FLAG_DEPENDENCIES, f) == []
  {
    DependenciesHaveRow(FLAG_DEPENDENCIES, f);
    if i :| 0 <= i < |FLAG_DEPENDENCIES| && FLAG_DEPENDENCIES[i].flag == f {
      assert i < 6;
    }
  }

  lemma ShippedLookup(f: FeatureFlag)
    ensures Dependencies(FLAG_DEPENDENCIES, f) == ShippedDependencies(f)
  {
    ShippedKeysUnique();
    assert FLAG_DEPENDENCIES[2] == Entry(UserPhotosEnabled, [ModerationEnabled]);
    match f
    case PublicReviewsEnabled => DependenciesOfRow(FLAG_DEPENDENCIES, 0);
    case ReviewVotesEnabled => DependenciesOfRow(FLAG_DEPENDENCIES, 1);
    case UserPhotosEnabled => DependenciesOfRow(FLAG_DEPENDENCIES, 2);
    case AccountLinkingEnabled => DependenciesOfRow(FLAG_DEPENDENCIES, 3);
    case ProfileEnabled => DependenciesOfRow(FLAG_DEPENDENCIES, 4);
    case RouteHistoryEnabled => DependenciesOfRow(FLAG_DEPENDENCIES, 5);
    case _ => ShippedWithoutRow(f);
  }

  /** all_feature_flags. */
  const ALL_FEATURE_FLAGS: set<FeatureFlag> := set f: FeatureFlag | true

  /** effective_feature_matrix. */
  function EffectiveMatrix<F(==)>(table: Table<F>, on: set<F>, flags: set<F>): map<F, bool> {
    map f | f in flags :: IsEnabled(table, on, f, {})
  }

  function RawMatrix<F(==)>(on: set<F>, flags: set<F>): map<F, bool> {
    map f | f in flags :: f in on
  }

  /** What a flag needs, itself included. */
  function Needs(f: FeatureFlag): set<FeatureFlag> {
    match f
    case PublicReviewsEnabled => {f, ReviewsEnabled, ModerationEnabled}
    case ReviewVotesEnabled => {f, PublicReviewsEnabled, ReviewsEnabled, ModerationEnabled}
    case UserPhotosEnabled => {f, ModerationEnabled}
    case AccountLinkingEnabled => {f, TelegramIdentityEnabled}
    case ProfileEnabled | RouteHistoryEnabled => {f, AuthEnabled}
    case _ => {f}
  }

  /** The shipped flags, one by one: each takes effect exactly when all it needs, down
      to the flags that need nothing, is configured on. */
  lemma {:induction false} ShippedEffective(on: set<FeatureFlag>, f: FeatureFlag)
    ensures Enabled(FLAG_DEPENDENCIES, on, f) <==> Needs(f) <= on
    decreases ShippedRank(f)
  {
    ShippedLookup(f);
    GateIffEnabled(FLAG_DEPENDENCIES, on, f);
    forall d | d in ShippedDependencies(f) ensures Enabled(FLAG_DEPENDENCIES, on, d) <==> Needs(d) <= on {
      ShippedEffective(on, d);
    }
    match f
    case PublicReviewsEnabled =>
      assert ReviewsEnabled in ShippedDependencies(f) && ModerationEnabled in ShippedDependencies(f);
    case ReviewVotesEnabled => assert PublicReviewsEnabled in ShippedDependencies(f);
    case UserPhotosEnabled => assert ModerationEnabled in ShippedDependencies(f);
    case AccountLinkingEnabled => assert TelegramIdentityEnabled in ShippedDependencies(f);
    case ProfileEnabled | RouteHistoryEnabled => assert AuthEnabled in ShippedDependencies(f);
    case _ =>
  }

  lemma MatrixEquality(table: Table<FeatureFlag>, on: set<FeatureFlag>)
    ensures EffectiveMatrix(table, on, ALL_FEATURE_FLAGS) == RawMatrix(on, ALL_FEATURE_FLAGS)
       <==> forall f :: Enabled(table, on, f) <==> f in on
  {
    var effective, raw := EffectiveMatrix(table, on, ALL_FEATURE_FLAGS), RawMatrix(on, ALL_FEATURE_FLAGS);
    if effective == raw {
      forall f ensures Enabled(table, on, f) <==> f in on {
        assert f in effective && effective[f] == raw[f];
      }
    }
  }

  /** The matrix has exactly the flags asked for, and each is on when everything it
      needs is. */
  lemma MatrixMeaning<F(!new)>(table: Table<F>, on: set<F>, flags: set<F>)
    ensures EffectiveMatrix(table, on, flags).Keys == flags && RawMatrix(on, flags).Keys == flags
    ensures forall f :: f in flags ==>
              && (RawMatrix(on, flags)[f] <==> f in on)
              && (EffectiveMatrix(table, on, flags)[f] <==>
                  forall g :: Reaches(table, f, g) ==> g in on && !OnCycle(table, g))
  {
    forall f | f in flags
      ensures EffectiveMatrix(table, on, flags)[f]
         <==> forall g :: Reaches(table, f, g) ==> g in on && !OnCycle(table, g)
    {
      EnabledIffReachableConfigured(table, on, f);
    }
  }

  /** The shipped table is a dict without cycles, so its validator accepts exactly
      the settings that take effect as written. */
  lemma ShippedValidatorExact(on: set<FeatureFlag>)
    ensures UniqueKeys(FLAG_DEPENDENCIES)
    ensures Consistent(FLAG_DEPENDENCIES, on)
       <==> EffectiveMatrix(FLAG_DEPENDENCIES, on, ALL_FEATURE_FLAGS) == RawMatrix(on, ALL_FEATURE_FLAGS)
  {
    ShippedKeysUnique();
    forall f, d | d in Dependencies(FLAG_DEPENDENCIES, f) ensures ShippedRank(d) < ShippedRank(f) {
      ShippedLookup(f);
    }
    forall f ensures !OnCycle(FLAG_DEPENDENCIES, f) { RankedHasNoCycle(FLAG_DEPENDENCIES, ShippedRank, f); }
    ValidatorExactOnAcyclic(FLAG_DEPENDENCIES, on);
    MatrixEquality(FLAG_DEPENDENCIES, on);
  }
}
