// A JavaScript Map: distinct keys that keep the position of their first insertion.
module OrderedMaps {
  import opened Wrappers

  type Entries<K, V> = seq<(K, V)>

  function Position<K(==), V>(m: Entries<K, V>, key: K): (p: nat)
    ensures p <= |m|
    ensures p < |m| ==> m[p].0 == key
    ensures forall i | 0 <= i < p :: m[i].0 != key
  {
    if m == [] then 0
    else
      var p := Position(m[..|m| - 1], key);
      if p < |m| - 1 || m[|m| - 1].0 == key then p else |m|
  }

  function Get<K(==), V>(m: Entries<K, V>, key: K): Option<V> {
    var p := Position(m, key);
    if p < |m| then Some(m[p].1) else None
  }

  function Put<K(==), V>(m: Entries<K, V>, key: K, value: V): Entries<K, V> {
    var p := Position(m, key);
    if p < |m| then m[p := (key, value)] else m + [(key, value)]
  }

  ghost predicate Distinct<K, V>(m: Entries<K, V>) {
    forall i, j | 0 <= i < j < |m| :: m[i].0 != m[j].0
  }

  lemma GetAt<K, V>(m: Entries<K, V>, i: nat)
    requires Distinct(m) && i < |m|
    ensures Get(m, m[i].0) == Some(m[i].1)
  {
  }

  lemma PutThenGet<K, V>(m: Entries<K, V>, key: K, value: V, other: K)
    requires Distinct(m)
    ensures Distinct(Put(m, key, value))
    ensures Get(Put(m, key, value), other) == if other == key then Some(value) else Get(m, other)
  {
    var put := Put(m, key, value);
    assert Distinct(put);
    var p := Position(m, key);
    if other == key {
      GetAt(put, p);
    } else {
      var q := Position(m, other);
      if q < |m| {
        GetAt(put, q);
      }
    }
  }

  // Putting a key leaves the keys as they are, or adds the new one at the end.
  lemma PutKeepsOrder<K, V>(m: Entries<K, V>, key: K, value: V)
    ensures Get(m, key).Some? ==>
              |Put(m, key, value)| == |m| && forall i | 0 <= i < |m| :: Put(m, key, value)[i].0 == m[i].0
    ensures Get(m, key).None? ==> Put(m, key, value) == m + [(key, value)]
  {
  }

  ghost function FirstIn<T>(s: seq<T>, x: T, from: nat): (i: nat)
    requires from <= |s|
    ensures from <= i <= |s|
    ensures i < |s| ==> s[i] == x
    ensures forall k | from <= k < i :: s[k] != x
    decreases |s| - from
  {
    if from == |s| || s[from] == x then from else FirstIn(s, x, from + 1)
  }

  // The keys stand in the order in which they first occur.
  ghost predicate InFirstOrder<K, V>(m: Entries<K, V>, keys: seq<K>, n: nat) {
    && (forall e | 0 <= e < |m| :: FirstIn(keys, m[e].0, 0) < n)
    && forall e, f | 0 <= e < f < |m| :: FirstIn(keys, m[e].0, 0) < FirstIn(keys, m[f].0, 0)
  }

  lemma PutInFirstOrder<K, V>(m: Entries<K, V>, keys: seq<K>, n: nat, value: V)
    requires InFirstOrder(m, keys, n) && n < |keys|
    requires Get(m, keys[n]).None? ==> forall k | 0 <= k < n :: keys[k] != keys[n]
    ensures InFirstOrder(Put(m, keys[n], value), keys, n + 1) && InFirstOrder(m, keys, n + 1)
  {
    hide Put, Get, FirstIn;
    var put := Put(m, keys[n], value);
    PutKeepsOrder(m, keys[n], value);
    if Get(m, keys[n]).None? {
      assert FirstIn(keys, keys[n], 0) == n;
      assert put[|m|].0 == keys[n];
    }
  }
}
