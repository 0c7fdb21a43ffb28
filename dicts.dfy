/** Python dictionaries, whose iteration follows the order in which keys were first inserted. */
module Dicts {

  datatype Dict<K(==), V> = Dict(keys: seq<K>, items: map<K, V>) {

    /** Each key once, in insertion order, and exactly the keys that have a value. */
    ghost predicate Valid() {
      (forall i, j | 0 <= i < j < |keys| :: keys[i] != keys[j]) &&
      (forall k | k in items :: k in keys) &&
      (forall i | 0 <= i < |keys| :: keys[i] in items)
    }
  }

  function Empty<K(==), V>(): (d: Dict<K, V>)
    ensures d.Valid() && d.items == map[]
  {
    Dict([], map[])
  }

  /** `d[k] = v`: a new key is iterated last, an existing key keeps its place. */
  function Put<K(==), V>(d: Dict<K, V>, k: K, v: V): (r: Dict<K, V>)
    ensures d.Valid() ==> r.Valid()
    ensures r.items == d.items[k := v]
    ensures d.Valid() ==> |r.keys| == |d.keys| + (if k in d.items then 0 else 1)
    ensures d.Valid() ==> r.keys[..|d.keys|] == d.keys
  {
    if k in d.items then Dict(d.keys, d.items[k := v]) else Dict(d.keys + [k], d.items[k := v])
  }

  /** Storing twice under one key leaves the second value, in the first one's place. */
  lemma PutTwice<K, V>(d: Dict<K, V>, k: K, v: V, w: V)
    ensures Put(Put(d, k, v), k, w) == Put(d, k, w)
  {
  }
}
