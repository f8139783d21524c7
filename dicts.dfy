/** Python's insertion-ordered `dict`: the keys in the order they were first
    inserted, and the current value of each. */
module Dicts {

  datatype Dict<K(==), V> = Dict(keys: seq<K>, vals: map<K, V>) {

    /** No key listed twice, and the listed keys are exactly the mapped ones. */
    ghost predicate Valid() {
      (forall i, j | 0 <= i < j < |keys| :: keys[i] != keys[j]) &&
      (forall k | k in vals :: k in keys) &&
      (forall i | 0 <= i < |keys| :: keys[i] in vals)
    }

    /** `d[k] = v`: a new key goes to the end, an existing key keeps its
        place, and the value is replaced either way. */
    function Put(k: K, v: V): (d: Dict<K, V>)
      requires Valid()
      ensures d.Valid()
      ensures k in vals ==> d.keys == keys
      ensures k !in vals ==> d.keys == keys + [k]
      ensures d.vals == vals[k := v]
    {
      Dict(if k in vals then keys else keys + [k], vals[k := v])
    }
  }

  function Empty<K(==), V>(): (d: Dict<K, V>)
    ensures d.Valid() && |d.keys| == 0
  {
    Dict([], map[])
  }

  /** Writing a key twice leaves only the second value, and the key where
      the first write put it. */
  lemma PutPut<K, V>(d: Dict<K, V>, k: K, v1: V, v2: V)
    requires d.Valid()
    ensures d.Put(k, v1).Put(k, v2) == d.Put(k, v2)
  {
  }
}
