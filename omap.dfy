/**
  Insertion-ordered dictionaries. A Python dict remembers the order in which
  its keys were first inserted, and assigning to an existing key keeps that
  key's place; `OMap` makes this order explicit as the sequence `keys`.
 */
module OrderedMaps {
  import opened Wrappers

  datatype OMap<K(!new), V> = OMap(keys: seq<K>, vals: map<K, V>) {

    /** Every key is listed exactly once, and only keys of `vals` are listed. */
    ghost predicate Valid() {
      && (forall k :: k in vals <==> k in keys)
      && (forall i, j :: 0 <= i < j < |keys| ==> keys[i] != keys[j])
    }

    /** `d.get(k)` */
    function Get(k: K): (r: Option<V>)
      ensures r.Some? <==> k in vals
      ensures r.Some? ==> r.value == vals[k]
    {
      if k in vals then Some(vals[k]) else None
    }

    /** `d[k] = v`: a new key goes last, an existing key keeps its place. */
    function Put(k: K, v: V): (r: OMap<K, V>)
      requires Valid()
      ensures r.Valid()
      ensures r.vals == vals[k := v]
      ensures k in vals ==> r.keys == keys
      ensures k !in vals ==> r.keys == keys + [k]
    {
      if k in vals then OMap(keys, vals[k := v]) else OMap(keys + [k], vals[k := v])
    }

    /** `d.setdefault(k, v)`: only a missing key is added. */
    function SetDefault(k: K, v: V): (r: OMap<K, V>)
      requires Valid()
      ensures r.Valid()
      ensures k in vals ==> r == this
      ensures k !in vals ==> r.vals == vals[k := v] && r.keys == keys + [k]
    {
      if k in vals then this else Put(k, v)
    }
  }

  function Empty<K(!new), V>(): (r: OMap<K, V>)
    ensures r.Valid() && r.vals == map[] && r.keys == []
  {
    OMap([], map[])
  }
}
