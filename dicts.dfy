/** Python's `dict` keeps its keys in insertion order, and the checker iterates
    over `matches.items()`, so the order is part of what the matchers return.
    A `Dict` is the key order together with the mapping; all the matchers'
    keys are strings. */
module Dicts {

  datatype Dict<V> = Dict(keys: seq<string>, items: map<string, V>) {

    /** Every key appears once in `keys`, and `keys` lists exactly the mapped keys. */
    ghost predicate Valid() {
      && (forall i, j :: 0 <= i < j < |keys| ==> keys[i] != keys[j])
      && (forall k :: k in items <==> k in keys)
    }

    /** `d[k] = v`: a new key goes to the end, an existing key keeps its place. */
    function Put(k: string, v: V): (d: Dict<V>)
      ensures d.items == items[k := v]
      ensures k in items ==> d.keys == keys
      ensures k !in items ==> d.keys == keys + [k]
      ensures Valid() ==> d.Valid()
    {
      if k in items then Dict(keys, items[k := v]) else Dict(keys + [k], items[k := v])
    }
  }

  function Empty<V>(): (d: Dict<V>)
    ensures d.Valid() && d.items == map[] && d.keys == []
  {
    Dict([], map[])
  }

  /** Writing a key twice is the same as writing the last value once. */
  lemma PutPut<V>(d: Dict<V>, k: string, v1: V, v2: V)
    ensures d.Put(k, v1).Put(k, v2) == d.Put(k, v2)
  {
  }
}
