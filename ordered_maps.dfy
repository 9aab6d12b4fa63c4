/**
 * A Python dictionary as the core uses it: a map together with the order in
 * which its keys were first inserted. `list(d.keys())` and iteration follow
 * that order; assigning to an existing key keeps its place.
 */
module OrderedMaps {
  import opened Seqs

  datatype OrderedMap<K(==,!new), V> = OrderedMap(keys: seq<K>, entries: map<K, V>) {

    /** The insertion order lists every key of the map exactly once. */
    ghost predicate Valid() {
      Distinct(keys) && forall k :: k in entries <==> k in keys
    }

    /** `len(d)`. */
    function Size(): nat {
      |entries|
    }

    /**
     * `d[k] = v`: the value of `k` becomes `v`; a new key goes last in the
     * order, an existing key keeps its place.
     */
    function Put(k: K, v: V): (m: OrderedMap<K, V>)
      ensures Valid() ==> m.Valid()
      ensures m.entries == entries[k := v]
      ensures k in entries ==> m.keys == keys
      ensures k !in entries ==> m.keys == keys + [k]
    {
      if k in entries then OrderedMap(keys, entries[k := v])
      else OrderedMap(keys + [k], entries[k := v])
    }
  }

  /** `{}`. */
  function Empty<K(==,!new), V>(): (m: OrderedMap<K, V>)
    ensures m.Valid() && m.keys == [] && m.Size() == 0
  {
    OrderedMap([], map[])
  }

  /** Inserting a placeholder for a new key and then overwriting it is one insertion. */
  lemma PutOverwrite<K(!new), V>(m: OrderedMap<K, V>, k: K, v: V, w: V)
    requires k !in m.entries
    ensures m.Put(k, v).Put(k, w) == m.Put(k, w)
  {
    assert m.entries[k := v][k := w] == m.entries[k := w];
  }

  /** The key order lists as many keys as the map holds entries. */
  lemma KeyCount<K(!new), V>(m: OrderedMap<K, V>)
    requires m.Valid()
    ensures |m.keys| == m.Size()
  {
    DistinctCardinality(m.keys);
    assert (set x | x in m.keys) == m.entries.Keys;
  }
}
