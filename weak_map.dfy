/**
 * The list-backed `WeakMap` polyfill of js/wow.js: parallel `keys` and `values` lists searched
 * by identity. `get` answers `undefined` (here `None`) for a key never set.
 */
module WeakMapPolyfill {
  import opened Wrappers
  import opened Seqs

  /** The association a pair of parallel lists represents; a later entry wins over an earlier one. */
  ghost function MapOf<K, V>(ks: seq<K>, vs: seq<V>): map<K, V>
    requires |ks| == |vs|
  {
    if ks == [] then map[] else MapOf(ks[..|ks| - 1], vs[..|vs| - 1])[ks[|ks| - 1] := vs[|vs| - 1]]
  }

  /** The keys of the association are exactly the listed keys. */
  lemma {:induction false} MapOfKeys<K, V>(ks: seq<K>, vs: seq<V>, k: K)
    requires |ks| == |vs|
    ensures k in MapOf(ks, vs) <==> k in ks
  {
    if ks != [] {
      MapOfKeys(ks[..|ks| - 1], vs[..|vs| - 1], k);
      assert ks == ks[..|ks| - 1] + [ks[|ks| - 1]];
    }
  }

  /** With distinct keys, the i-th key is associated with the i-th value. */
  lemma {:induction false} MapOfAt<K, V>(ks: seq<K>, vs: seq<V>, i: int)
    requires |ks| == |vs| && Distinct(ks) && 0 <= i < |ks|
    ensures ks[i] in MapOf(ks, vs) && MapOf(ks, vs)[ks[i]] == vs[i]
  {
    if i < |ks| - 1 {
      DistinctInit(ks);
      assert ks[i] in ks[..|ks| - 1];
      MapOfAt(ks[..|ks| - 1], vs[..|vs| - 1], i);
    }
  }

  /** Overwriting the i-th value updates the association at the i-th key. */
  lemma {:induction false} MapOfUpdate<K, V>(ks: seq<K>, vs: seq<V>, i: int, v: V)
    requires |ks| == |vs| && Distinct(ks) && 0 <= i < |ks|
    ensures MapOf(ks, vs[i := v]) == MapOf(ks, vs)[ks[i] := v]
  {
    var n := |ks| - 1;
    if i == n {
      assert vs[i := v][..n] == vs[..n];
    } else {
      assert vs[i := v][..n] == vs[..n][i := v];
      DistinctInit(ks);
      assert ks[i] in ks[..n];
      MapOfUpdate(ks[..n], vs[..n], i, v);
    }
  }

  class ListMap<K(==), V> {
    var keys: seq<K>
    var values: seq<V>

    /** The lists stay parallel and no key is stored twice. */
    ghost predicate Valid()
      reads this
    {
      |keys| == |values| && Distinct(keys)
    }

    /** The association the two lists represent. */
    ghost function Contents(): map<K, V>
      reads this
      requires Valid()
    {
      MapOf(keys, values)
    }

    constructor ()
      ensures Valid() && keys == [] && Contents() == map[]
    {
      keys, values := [], [];
    }

    /** The value last set for `key`, or `None` when it was never set. */
    method Get(key: K) returns (r: Option<V>)
      requires Valid()
      ensures key in Contents() ==> r == Some(Contents()[key])
      ensures key !in Contents() ==> r == None
    {
      var i := 0;
      while i < |keys|
        invariant 0 <= i <= |keys|
        invariant forall j :: 0 <= j < i ==> keys[j] != key
      {
        if keys[i] == key {
          MapOfAt(keys, values, i);
          return Some(values[i]);
        }
        i := i + 1;
      }
      MapOfKeys(keys, values, key);
      return None;
    }

    /** Overwrites the value of a stored key in place, or appends a new key and its value. */
    method Set(key: K, value: V)
      requires Valid()
      modifies this
      ensures Valid()
      ensures Contents() == old(Contents())[key := value]
      ensures key in old(Contents()) ==> keys == old(keys)
      ensures key !in old(Contents()) ==> keys == old(keys) + [key]
    {
      var i := 0;
      while i < |keys|
        invariant 0 <= i <= |keys|
        invariant forall j :: 0 <= j < i ==> keys[j] != key
      {
        if keys[i] == key {
          MapOfUpdate(keys, values, i, value);
          MapOfKeys(keys, values, key);
          values := values[i := value];
          return;
        }
        i := i + 1;
      }
      MapOfKeys(keys, values, key);
      DistinctSnoc(keys, key);
      keys := keys + [key];
      values := values + [value];
      assert keys[..|keys| - 1] == old(keys) && values[..|values| - 1] == old(values);
    }
  }
}
