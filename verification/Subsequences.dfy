// Sequences with some entries left out, in order.
module Subsequences {

  /** Positions that pick `sub` out of `items`, in order. */
  ghost predicate PicksOut<T(!new)>(at: seq<nat>, sub: seq<T>, items: seq<T>) {
    && |at| == |sub|
    && (forall i :: 0 <= i < |at| ==> at[i] < |items| && sub[i] == items[at[i]])
    && (forall i, j :: 0 <= i < j < |at| ==> at[i] < at[j])
  }

  ghost predicate Subsequence<T(!new)>(sub: seq<T>, items: seq<T>) {
    exists at :: PicksOut(at, sub, items)
  }

  lemma WholeIsSubsequence<T(!new)>(items: seq<T>)
    ensures Subsequence(items, items)
  {
    var at := seq(|items|, i => i);
    assert PicksOut(at, items, items);
  }

  lemma SubsequenceSnoc<T(!new)>(sub: seq<T>, items: seq<T>, taken: bool)
    requires items != [] && Subsequence(sub, items[..|items| - 1])
    ensures Subsequence(sub + (if taken then [items[|items| - 1]] else []), items)
  {
    var n := |items| - 1;
    var at :| PicksOut(at, sub, items[..n]);
    if taken {
      assert PicksOut(at + [n], sub + [items[n]], items);
    } else {
      assert sub + [] == sub;
      assert PicksOut(at, sub, items);
    }
  }

  function Shifted(at: seq<nat>): seq<nat> {
    seq(|at|, i requires 0 <= i < |at| => at[i] + 1)
  }

  lemma ShiftedPicks<T(!new)>(at: seq<nat>, sub: seq<T>, items: seq<T>)
    requires items != [] && PicksOut(at, sub, items[1..])
    ensures PicksOut(Shifted(at), sub, items)
  {
    forall i | 0 <= i < |at| ensures Shifted(at)[i] < |items| && sub[i] == items[Shifted(at)[i]] {
      assert items[1..][at[i]] == items[at[i] + 1];
    }
  }

  lemma FirstPicked<T(!new)>(at: seq<nat>, sub: seq<T>, items: seq<T>)
    requires items != [] && PicksOut(at, sub, items) && forall i :: 0 <= i < |at| ==> at[i] > 0
    ensures PicksOut([0] + at, [items[0]] + sub, items)
  {
    var longer, more := [0] + at, [items[0]] + sub;
    forall i | 0 <= i < |longer| ensures longer[i] < |items| && more[i] == items[longer[i]] {
      if i > 0 { assert longer[i] == at[i - 1] && more[i] == sub[i - 1]; }
    }
    forall i, j | 0 <= i < j < |longer| ensures longer[i] < longer[j] {
      assert longer[j] == at[j - 1];
      if i > 0 { assert longer[i] == at[i - 1]; }
    }
  }

  lemma SubsequenceCons<T(!new)>(sub: seq<T>, items: seq<T>, taken: bool)
    requires items != [] && Subsequence(sub, items[1..])
    ensures Subsequence((if taken then [items[0]] else []) + sub, items)
  {
    var at :| PicksOut(at, sub, items[1..]);
    ShiftedPicks(at, sub, items);
    if taken {
      FirstPicked(Shifted(at), sub, items);
    } else {
      assert [] + sub == sub;
    }
  }

  lemma SubsequenceTrans<T(!new)>(a: seq<T>, b: seq<T>, c: seq<T>)
    requires Subsequence(a, b) && Subsequence(b, c)
    ensures Subsequence(a, c)
  {
    var ab :| PicksOut(ab, a, b);
    var bc :| PicksOut(bc, b, c);
    var ac := seq(|ab|, i requires 0 <= i < |ab| => bc[ab[i]]);
    assert PicksOut(ac, a, c);
  }
}
