/** A map that remembers the order in which its keys were first put (section 24.1 of ECMA-262). */
module InsertionMap {
  import opened Collections

  datatype OrderedMap<K(==,!new), V> = OrderedMap(keys: seq<K>, entries: map<K, V>) {
    ghost predicate Valid() {
      && NoDuplicates(keys)
      && forall k :: k in keys <==> k in entries
    }

    function Get(k: K): Option<V> {
      if k in entries then Some(entries[k]) else None
    }

    /** A key that is present keeps its place. */
    function Put(k: K, v: V): OrderedMap<K, V> {
      OrderedMap(if k in entries then keys else keys + [k], entries[k := v])
    }

    function Delete(k: K): OrderedMap<K, V> {
      OrderedMap(Without(keys, k), map j | j in entries.Keys && j != k :: entries[j])
    }

    ghost function Values(): seq<V>
      requires Valid()
    {
      ValuesOf(keys, entries)
    }
  }

  function Empty<K(!new), V>(): OrderedMap<K, V> {
    OrderedMap([], map[])
  }

  function Without<K(==)>(keys: seq<K>, k: K): seq<K> {
    if keys == [] then []
    else (if keys[0] == k then [] else [keys[0]]) + Without(keys[1..], k)
  }

  function ValuesOf<K(==,!new), V>(keys: seq<K>, entries: map<K, V>): (r: seq<V>)
    requires forall k :: k in keys ==> k in entries
    ensures |r| == |keys|
    ensures forall i :: 0 <= i < |keys| ==> r[i] == entries[keys[i]]
  {
    if keys == [] then [] else [entries[keys[0]]] + ValuesOf(keys[1..], entries)
  }

  lemma PutKeepsValid<K(!new), V>(m: OrderedMap<K, V>, k: K, v: V)
    requires m.Valid()
    ensures m.Put(k, v).Valid()
  {
  }

  /** Putting a new key appends its value. */
  lemma PutNew<K(!new), V>(m: OrderedMap<K, V>, k: K, v: V)
    requires m.Valid() && k !in m.entries
    ensures m.Put(k, v).Valid() && m.Put(k, v).Values() == m.Values() + [v]
  {
    PutKeepsValid(m, k, v);
  }

  /** Putting a present key replaces the value at that key's place. */
  lemma PutPresent<K(!new), V>(m: OrderedMap<K, V>, i: nat, v: V)
    requires m.Valid() && i < |m.keys|
    ensures m.Put(m.keys[i], v).Valid() && m.Put(m.keys[i], v).Values() == m.Values()[i := v]
  {
    assert m.keys[i] in m.keys;
    PutKeepsValid(m, m.keys[i], v);
  }

  lemma {:induction false} WithoutMembers<K(!new)>(keys: seq<K>, k: K)
    requires NoDuplicates(keys)
    ensures NoDuplicates(Without(keys, k))
    ensures forall j :: j in Without(keys, k) <==> j in keys && j != k
    ensures |Without(keys, k)| == |keys| - (if k in keys then 1 else 0)
  {
    if keys != [] {
      WithoutMembers(keys[1..], k);
      assert keys[0] !in keys[1..];
    }
  }

  lemma DeleteKeepsValid<K(!new), V>(m: OrderedMap<K, V>, k: K)
    requires m.Valid()
    ensures m.Delete(k).Valid()
    ensures |m.Delete(k).keys| == |m.keys| - (if k in m.entries then 1 else 0)
  {
    WithoutMembers(m.keys, k);
  }
}
