/**
 * PHP arrays with string keys, as ordered association lists.
 *
 * Assigning to a key that is present replaces its value where it stands;
 * assigning to a new key appends it; `unset` drops the key. Reading a key
 * gives its first occurrence.
 */
module Assoc {
  import opened Wrappers

  type Assoc<V> = seq<(string, V)>

  function Keys<V>(a: Assoc<V>): (ks: seq<string>)
    ensures |ks| == |a|
    ensures forall i :: 0 <= i < |a| ==> ks[i] == a[i].0
  {
    if a == [] then [] else [a[0].0] + Keys(a[1..])
  }

  function Values<V>(a: Assoc<V>): (vs: seq<V>)
    ensures |vs| == |a|
    ensures forall i :: 0 <= i < |a| ==> vs[i] == a[i].1
  {
    if a == [] then [] else [a[0].1] + Values(a[1..])
  }

  /** `$a[$k]`, or None when the key is absent. */
  function Lookup<V>(a: Assoc<V>, k: string): (r: Option<V>)
    ensures r.None? <==> k !in Keys(a)
    ensures r.Some? ==> (k, r.value) in a
  {
    if a == [] then None
    else if a[0].0 == k then Some(a[0].1)
    else Lookup(a[1..], k)
  }

  /** `$a[$k] = $v`. */
  function Put<V>(a: Assoc<V>, k: string, v: V): (r: Assoc<V>)
    ensures |a| <= |r| <= |a| + 1
  {
    if a == [] then [(k, v)]
    else if a[0].0 == k then [(k, v)] + a[1..]
    else [a[0]] + Put(a[1..], k, v)
  }

  /** `unset($a[$k])`. */
  function Remove<V>(a: Assoc<V>, k: string): (r: Assoc<V>)
    ensures |r| <= |a|
  {
    if a == [] then []
    else if a[0].0 == k then Remove(a[1..], k)
    else [a[0]] + Remove(a[1..], k)
  }

  /** True when no key occurs twice, as in every PHP array. */
  predicate UniqueKeys<V>(a: Assoc<V>) {
    forall i, j :: 0 <= i < j < |a| ==> a[i].0 != a[j].0
  }

  lemma {:induction false} LookupPut<V>(a: Assoc<V>, k: string, v: V, j: string)
    ensures Lookup(Put(a, k, v), j) == if j == k then Some(v) else Lookup(a, j)
  {
    if a != [] && a[0].0 != k {
      LookupPut(a[1..], k, v, j);
    }
  }

  lemma {:induction false} LookupRemove<V>(a: Assoc<V>, k: string, j: string)
    ensures Lookup(Remove(a, k), j) == if j == k then None else Lookup(a, j)
  {
    if a != [] {
      LookupRemove(a[1..], k, j);
    }
  }

  /** Writing an existing key keeps the order of the keys. */
  lemma {:induction false} PutExistingKeepsKeys<V>(a: Assoc<V>, k: string, v: V)
    requires k in Keys(a)
    ensures Keys(Put(a, k, v)) == Keys(a)
  {
    if a[0].0 != k {
      assert k in Keys(a[1..]);
      PutExistingKeepsKeys(a[1..], k, v);
    }
  }

  /** Writing a new key appends it. */
  lemma {:induction false} PutNewAppends<V>(a: Assoc<V>, k: string, v: V)
    requires k !in Keys(a)
    ensures Put(a, k, v) == a + [(k, v)]
  {
    if a != [] {
      assert a[0].0 == Keys(a)[0];
      assert k !in Keys(a[1..]);
      PutNewAppends(a[1..], k, v);
    }
  }

  lemma KeysAppend<V>(a: Assoc<V>, p: (string, V))
    ensures Keys(a + [p]) == Keys(a) + [p.0]
  {
  }

  /** In a PHP array, the last key does not occur before it. */
  lemma UniqueKeyIsNew<V>(a: Assoc<V>)
    requires a != [] && UniqueKeys(a)
    ensures a[|a| - 1].0 !in Keys(a[..|a| - 1])
  {
  }

  lemma KeysSplitLast<V>(a: Assoc<V>)
    requires a != []
    ensures Keys(a) == Keys(a[..|a| - 1]) + [a[|a| - 1].0]
  {
  }

  /** Keys depend only on the key column. */
  lemma UniqueKeysByKeys<V, W>(a: Assoc<V>, b: Assoc<W>)
    requires Keys(a) == Keys(b) && UniqueKeys(a)
    ensures UniqueKeys(b)
  {
    forall i, j | 0 <= i < j < |b|
      ensures b[i].0 != b[j].0
    {
      assert Keys(b)[i] == Keys(a)[i] && Keys(b)[j] == Keys(a)[j];
    }
  }

  /** An array built by assigning each pair of `a`, in order, to an empty array. */
  function PutAll<V>(a: Assoc<V>): Assoc<V>
    decreases |a|
  {
    if a == [] then []
    else
      var n := |a| - 1;
      Put(PutAll(a[..n]), a[n].0, a[n].1)
  }

  /** When the keys are distinct, assigning them in order rebuilds the list. */
  lemma {:induction false} PutAllUnique<V>(a: Assoc<V>)
    requires UniqueKeys(a)
    ensures PutAll(a) == a
  {
    if a != [] {
      var n := |a| - 1;
      var pre := a[..n];
      assert UniqueKeys(pre);
      PutAllUnique(pre);
      UniqueKeyIsNew(a);
      PutNewAppends(pre, a[n].0, a[n].1);
      assert a == pre + [a[n]];
    }
  }

  /** Pairs keys with values by position. */
  function Zip<V>(keys: seq<string>, values: seq<V>): (r: Assoc<V>)
    requires |keys| == |values|
    ensures Keys(r) == keys && Values(r) == values
  {
    seq(|keys|, i requires 0 <= i < |keys| => (keys[i], values[i]))
  }

  /** An assignment adds its own pair and otherwise keeps pairs already there. */
  lemma {:induction false} PutPairs<V>(a: Assoc<V>, k: string, v: V)
    ensures (k, v) in Put(a, k, v)
    ensures forall p :: p in Put(a, k, v) ==> p == (k, v) || p in a
  {
    if a != [] && a[0].0 != k {
      PutPairs(a[1..], k, v);
    }
  }

  /** An assignment keeps the keys distinct and adds exactly its own key. */
  lemma PutKeepsUnique<V>(a: Assoc<V>, k: string, v: V)
    requires UniqueKeys(a)
    ensures UniqueKeys(Put(a, k, v))
    ensures forall x :: x in Keys(Put(a, k, v)) <==> x == k || x in Keys(a)
  {
    if k in Keys(a) {
      PutExistingKeepsKeys(a, k, v);
      UniqueKeysByKeys(a, Put(a, k, v));
    } else {
      PutNewAppends(a, k, v);
      KeysAppend(a, (k, v));
    }
  }

  /** Assigning pairs in order gives an array with each key of the pairs once, and no pair that was not assigned. */
  lemma {:induction false} PutAllShape<V>(a: Assoc<V>)
    ensures UniqueKeys(PutAll(a))
    ensures forall x :: x in Keys(PutAll(a)) <==> x in Keys(a)
    ensures forall p :: p in PutAll(a) ==> p in a
    decreases |a|
  {
    if a != [] {
      var n := |a| - 1;
      PutAllShape(a[..n]);
      PutKeepsUnique(PutAll(a[..n]), a[n].0, a[n].1);
      PutPairs(PutAll(a[..n]), a[n].0, a[n].1);
      KeysSplitLast(a);
      assert forall p :: p in a[..n] ==> p in a;
    }
  }
}
