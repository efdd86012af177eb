/**
 * PHP's ordered hash arrays: a key sequence in insertion order over a map.
 * Writing an existing key keeps its position; writing a new key appends it.
 */
module OrderedMaps {
  import opened Options

  datatype OMap<K(==, !new), V> = OMap(keys: seq<K>, entries: map<K, V>) {

    /** Every key occurs once in the order, and the order lists exactly the keys. */
    predicate Valid() {
      (forall i, j :: 0 <= i < j < |keys| ==> keys[i] != keys[j])
      && (forall k :: k in entries ==> k in keys)
      && (forall k :: k in keys ==> k in entries)
    }

    /** $a[$k] */
    function Get(k: K): Option<V> {
      if k in entries then Some(entries[k]) else None
    }

    /** $a[$k] = $v */
    function Put(k: K, v: V): OMap<K, V> {
      if k in entries then OMap(keys, entries[k := v]) else OMap(keys + [k], entries[k := v])
    }

    /** The values in key order (a foreach over the array). */
    function Values(): (vs: seq<V>)
      requires Valid()
      ensures |vs| == |keys|
    {
      seq(|keys|, i requires 0 <= i < |keys| => entries[keys[i]])
    }
  }

  function Empty<K(==, !new), V>(): (m: OMap<K, V>)
    ensures m.Valid() && |m.keys| == 0
  {
    OMap([], map[])
  }

  /** Writing a key keeps the array well formed, makes the key read back, and leaves the other keys alone. */
  lemma PutSpec<K(!new), V>(m: OMap<K, V>, k: K, v: V)
    requires m.Valid()
    ensures m.Put(k, v).Valid()
    ensures m.Put(k, v).Get(k) == Some(v)
    ensures forall j :: j != k ==> m.Put(k, v).Get(j) == m.Get(j)
    ensures k in m.entries ==> m.Put(k, v).keys == m.keys
    ensures k !in m.entries ==> m.Put(k, v).keys == m.keys + [k]
  {
  }

  /** A write never moves the keys already present: the old order is a prefix of the new one. */
  lemma PutKeepsOrder<K(!new), V>(m: OMap<K, V>, k: K, v: V)
    requires m.Valid()
    ensures |m.keys| <= |m.Put(k, v).keys| && m.Put(k, v).keys[..|m.keys|] == m.keys
  {
  }

  /** Writing a new key appends its value to the values in key order. */
  lemma PutNewValues<K(!new), V>(m: OMap<K, V>, k: K, v: V)
    requires m.Valid() && k !in m.entries
    ensures m.Put(k, v).Valid() && m.Put(k, v).Values() == m.Values() + [v]
  {
    PutSpec(m, k, v);
    var vs := m.Put(k, v).Values();
    forall i | 0 <= i < |m.keys| ensures vs[i] == m.Values()[i] {
      assert m.keys[i] in m.entries;
    }
  }
}
