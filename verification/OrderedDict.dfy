// Python dicts: keys in insertion order, assignment in place, and the merge of
// two dict displays.
module OrderedDict {

  datatype Dict<K(==), V> = Dict(keys: seq<K>, values: map<K, V>)

  ghost predicate Distinct<K(!new)>(keys: seq<K>) { forall i, j :: 0 <= i < j < |keys| ==> keys[i] != keys[j] }

  /** One entry per key. */
  ghost predicate WellFormed<K(!new), V(!new)>(d: Dict<K, V>) {
    && Distinct(d.keys)
    && (forall k :: k in d.keys <==> k in d.values)
  }

  /** d.get(key, default) */
  function GetOr<K(==, !new), V(!new)>(d: Dict<K, V>, key: K, default: V): (v: V)
    ensures key in d.values ==> v == d.values[key]
    ensures key !in d.values ==> v == default
  {
    if key in d.values then d.values[key] else default
  }

  /** d[key] = value: in place when the key is there, else at the end. */
  function Put<K(==, !new), V(!new)>(d: Dict<K, V>, key: K, value: V): Dict<K, V> {
    Dict(if key in d.values then d.keys else d.keys + [key], d.values[key := value])
  }

  /** The assignments d[key] = value, for the first n entries in order. */
  function PutAll<K(==, !new), V(!new)>(d: Dict<K, V>, entries: seq<(K, V)>, n: nat): Dict<K, V>
    requires n <= |entries|
  {
    if n == 0 then d else Put(PutAll(d, entries, n - 1), entries[n - 1].0, entries[n - 1].1)
  }

  function Items<K(==, !new), V(!new)>(d: Dict<K, V>): seq<(K, V)>
    requires forall k :: k in d.keys ==> k in d.values
  {
    seq(|d.keys|, i requires 0 <= i < |d.keys| => assert d.keys[i] in d.keys; (d.keys[i], d.values[d.keys[i]]))
  }

  /** {**d, **more} */
  function Merge<K(==, !new), V(!new)>(d: Dict<K, V>, more: Dict<K, V>): Dict<K, V>
    requires forall k :: k in more.keys ==> k in more.values
  {
    PutAll(d, Items(more), |more.keys|)
  }

  predicate Has<K(==, !new), V(==, !new)>(d: Dict<K, V>, key: K, value: V) { key in d.values && d.values[key] == value }

  function KeysOf<K, V>(entries: seq<(K, V)>): seq<K> {
    seq(|entries|, i requires 0 <= i < |entries| => entries[i].0)
  }

  lemma PutMeaning<K(!new), V(!new)>(d: Dict<K, V>, key: K, value: V)
    requires WellFormed(d)
    ensures var r := Put(d, key, value);
            && WellFormed(r) && d.keys <= r.keys && Has(r, key, value)
            && (forall k :: k != key ==> (k in r.values <==> k in d.values))
            && (forall k :: k != key && k in d.values ==> r.values[k] == d.values[k])
  {
  }

  lemma {:induction false} PutAllKeeps<K(!new), V(!new)>(d: Dict<K, V>, entries: seq<(K, V)>, n: nat)
    requires WellFormed(d) && n <= |entries|
    ensures WellFormed(PutAll(d, entries, n)) && d.keys <= PutAll(d, entries, n).keys
    ensures forall k :: k in d.values ==> k in PutAll(d, entries, n).values
    ensures forall k :: k in PutAll(d, entries, n).values && (forall i :: 0 <= i < n ==> entries[i].0 != k)
                    ==> k in d.values && PutAll(d, entries, n).values[k] == d.values[k]
    decreases n
  {
    if n > 0 {
      PutAllKeeps(d, entries, n - 1);
      PutMeaning(PutAll(d, entries, n - 1), entries[n - 1].0, entries[n - 1].1);
    }
  }

  lemma {:induction false} PutAllHas<K(!new), V(!new)>(d: Dict<K, V>, entries: seq<(K, V)>, n: nat, i: nat)
    requires WellFormed(d) && Distinct(KeysOf(entries)) && i < n <= |entries|
    ensures Has(PutAll(d, entries, n), entries[i].0, entries[i].1)
    decreases n
  {
    if i < n - 1 {
      PutAllHas(d, entries, n - 1, i);
      assert KeysOf(entries)[i] != KeysOf(entries)[n - 1];
    }
  }

  lemma PutAllMeaning<K(!new), V(!new)>(d: Dict<K, V>, entries: seq<(K, V)>, n: nat)
    requires WellFormed(d) && Distinct(KeysOf(entries)) && n <= |entries|
    ensures WellFormed(PutAll(d, entries, n)) && d.keys <= PutAll(d, entries, n).keys
    ensures forall i :: 0 <= i < n ==> Has(PutAll(d, entries, n), entries[i].0, entries[i].1)
    ensures forall k :: k in d.values ==> k in PutAll(d, entries, n).values
    ensures forall k :: k in PutAll(d, entries, n).values && (forall i :: 0 <= i < n ==> entries[i].0 != k)
                    ==> k in d.values && PutAll(d, entries, n).values[k] == d.values[k]
  {
    PutAllKeeps(d, entries, n);
    forall i | 0 <= i < n ensures Has(PutAll(d, entries, n), entries[i].0, entries[i].1) {
      PutAllHas(d, entries, n, i);
    }
  }

  lemma MergeKeepsMore<K(!new), V(!new)>(d: Dict<K, V>, more: Dict<K, V>, k: K)
    requires WellFormed(d) && WellFormed(more) && k in more.values
    ensures k in Merge(d, more).values && Merge(d, more).values[k] == more.values[k]
  {
    var items := Items(more);
    PutAllMeaning(d, items, |items|);
    var i :| 0 <= i < |more.keys| && more.keys[i] == k;
    assert items[i] == (k, more.values[k]);
    assert Has(Merge(d, more), items[i].0, items[i].1);
  }

  lemma MergeKeepsOthers<K(!new), V(!new)>(d: Dict<K, V>, more: Dict<K, V>, k: K)
    requires WellFormed(d) && WellFormed(more) && k !in more.values
    ensures k in Merge(d, more).values <==> k in d.values
    ensures k in d.values ==> Merge(d, more).values[k] == d.values[k]
  {
    var items := Items(more);
    PutAllMeaning(d, items, |items|);
    assert forall i :: 0 <= i < |items| ==> items[i].0 in more.keys;
  }

  /** A merge has the keys of both; where they meet, the second wins. */
  lemma MergeMeaning<K(!new), V(!new)>(d: Dict<K, V>, more: Dict<K, V>)
    requires WellFormed(d) && WellFormed(more)
    ensures WellFormed(Merge(d, more)) && d.keys <= Merge(d, more).keys
    ensures forall k :: k in more.values ==> Has(Merge(d, more), k, more.values[k])
    ensures forall k :: k !in more.values ==> (k in Merge(d, more).values <==> k in d.values)
    ensures forall k :: k !in more.values && k in d.values ==> Has(Merge(d, more), k, d.values[k])
  {
    forall k | k in more.values ensures Has(Merge(d, more), k, more.values[k]) { MergeKeepsMore(d, more, k); }
    forall k | k !in more.values ensures k in Merge(d, more).values <==> k in d.values {
      MergeKeepsOthers(d, more, k);
    }
    forall k | k !in more.values && k in d.values ensures Has(Merge(d, more), k, d.values[k]) {
      MergeKeepsOthers(d, more, k);
    }
    PutAllMeaning(d, Items(more), |more.keys|);
  }

  // ---- Order -----------------------------------------------------------------

  lemma {:induction false} PutAllStays<K(!new), V(!new)>(d: Dict<K, V>, entries: seq<(K, V)>, n: nat, key: K)
    requires n <= |entries| && key in d.values
    ensures key in PutAll(d, entries, n).values
    decreases n
  {
    if n > 0 {
      PutAllStays(d, entries, n - 1, key);
    }
  }

  lemma PutAllNewKey<K(!new), V(!new)>(d: Dict<K, V>, entries: seq<(K, V)>, n: nat)
    requires WellFormed(d) && Distinct(KeysOf(entries)) && n < |entries| && entries[n].0 !in d.values
    ensures entries[n].0 !in PutAll(d, entries, n).values
  {
    PutAllKeeps(d, entries, n);
    forall i | 0 <= i < n ensures entries[i].0 != entries[n].0 {
      assert KeysOf(entries)[i] != KeysOf(entries)[n];
    }
  }

  /** The keys that are new to a dict, in order. */
  function NewTo<K(==, !new), V(!new)>(d: Dict<K, V>, keys: seq<K>): seq<K> {
    if keys == [] then []
    else NewTo(d, keys[..|keys| - 1]) + (if keys[|keys| - 1] in d.values then [] else [keys[|keys| - 1]])
  }

  /** When the known keys come first, the new ones are the rest. */
  lemma {:induction false} NewToTail<K(!new), V(!new)>(d: Dict<K, V>, keys: seq<K>, m: nat)
    requires m <= |keys| && forall i :: 0 <= i < |keys| ==> (keys[i] in d.values <==> i < m)
    ensures NewTo(d, keys) == keys[m..]
    decreases |keys|
  {
    if keys != [] {
      var n := |keys| - 1;
      if m <= n {
        NewToTail(d, keys[..n], m);
        assert keys[m..] == keys[..n][m..] + [keys[n]];
      } else {
        NewToTail(d, keys[..n], n);
      }
    }
  }

  /** New keys go to the end, in the order of their entries; known ones stay put. */
  lemma {:induction false} PutAllOrder<K(!new), V(!new)>(d: Dict<K, V>, entries: seq<(K, V)>, n: nat)
    requires WellFormed(d) && Distinct(KeysOf(entries)) && n <= |entries|
    ensures PutAll(d, entries, n).keys == d.keys + NewTo(d, KeysOf(entries)[..n])
    decreases n
  {
    if n > 0 {
      var keys := KeysOf(entries)[..n];
      assert keys[..n - 1] == KeysOf(entries)[..n - 1] && keys[n - 1] == entries[n - 1].0;
      PutAllOrder(d, entries, n - 1);
      if entries[n - 1].0 in d.values {
        PutAllStays(d, entries, n - 1, entries[n - 1].0);
      } else {
        PutAllNewKey(d, entries, n - 1);
      }
    }
  }

  /** A merge keeps the first dict's order and appends the second one's new keys, in
      theirs. */
  lemma MergeOrder<K(!new), V(!new)>(d: Dict<K, V>, more: Dict<K, V>)
    requires WellFormed(d) && WellFormed(more)
    ensures Merge(d, more).keys == d.keys + NewTo(d, more.keys)
  {
    var items := Items(more);
    assert KeysOf(items) == more.keys;
    PutAllOrder(d, items, |items|);
    assert KeysOf(items)[..|items|] == more.keys;
  }

  /** An update with keys of its own: everything is kept, in order. */
  lemma UpdateWithNew<K(!new), V(!new)>(d: Dict<K, V>, more: Dict<K, V>)
    requires WellFormed(d) && WellFormed(more)
    requires forall k :: k in more.keys ==> k !in d.keys
    ensures WellFormed(Merge(d, more)) && Merge(d, more).keys == d.keys + more.keys
    ensures forall k :: k in d.keys ==> Has(Merge(d, more), k, d.values[k])
    ensures forall k :: k in more.keys ==> Has(Merge(d, more), k, more.values[k])
  {
    MergeMeaning(d, more);
    forall i | 0 <= i < |more.keys| ensures more.keys[i] !in d.values { assert more.keys[i] in more.keys; }
    MergeOrder(d, more);
    NewToTail(d, more.keys, 0);
  }

  /** A dict display. */
  function Display<K(==, !new), V(!new)>(entries: seq<(K, V)>): Dict<K, V> {
    PutAll(Dict([], map[]), entries, |entries|)
  }

  lemma DisplayOrder<K(!new), V(!new)>(entries: seq<(K, V)>)
    requires Distinct(KeysOf(entries))
    ensures WellFormed(Display(entries)) && Display(entries).keys == KeysOf(entries)
    ensures forall i :: 0 <= i < |entries| ==> Has(Display(entries), entries[i].0, entries[i].1)
  {
    var empty: Dict<K, V> := Dict([], map[]);
    PutAllMeaning(empty, entries, |entries|);
    PutAllOrder(empty, entries, |entries|);
    NewToTail(empty, KeysOf(entries), 0);
    assert KeysOf(entries)[..|entries|] == KeysOf(entries);
  }

  /** {key: f(key) for key in keys} */
  function FromKeys<K(==, !new), V(!new)>(keys: seq<K>, f: K -> V): Dict<K, V> {
    Display(seq(|keys|, i requires 0 <= i < |keys| => (keys[i], f(keys[i]))))
  }

  lemma FromKeysMeaning<K(!new), V(!new)>(keys: seq<K>, f: K -> V)
    requires Distinct(keys)
    ensures WellFormed(FromKeys(keys, f)) && FromKeys(keys, f).keys == keys
    ensures forall k :: k in keys ==> Has(FromKeys(keys, f), k, f(k))
  {
    var entries := seq(|keys|, i requires 0 <= i < |keys| => (keys[i], f(keys[i])));
    DisplayOrder(entries);
    assert KeysOf(entries) == keys;
    forall k | k in keys ensures Has(FromKeys(keys, f), k, f(k)) {
      var i :| 0 <= i < |keys| && keys[i] == k;
      assert Has(Display(entries), entries[i].0, entries[i].1);
    }
  }
}
