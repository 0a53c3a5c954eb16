/**
  A JavaScript `Map`: a finite map that remembers the order in which its keys
  were first inserted. Overwriting an existing key keeps its position, and
  iteration (`Array.from(m.values())`) follows insertion order.
 */
module OrderedMap {
  import opened Wrappers
  import opened Seqs

  datatype OMap<K(==), V> = OMap(keys: seq<K>, entries: map<K, V>)

  /** The insertion order lists every key exactly once. */
  ghost predicate Valid<K, V>(m: OMap<K, V>) {
    NoDup(m.keys) && Elems(m.keys) == m.entries.Keys
  }

  function Empty<K, V>(): (m: OMap<K, V>)
    ensures Valid(m) && m.entries == map[]
  {
    OMap([], map[])
  }

  /** `m.get(k)`. */
  function Get<K, V>(m: OMap<K, V>, k: K): (r: Option<V>)
    ensures r.Some? <==> k in m.entries
    ensures r.Some? ==> r.value == m.entries[k]
  {
    if k in m.entries then Some(m.entries[k]) else None
  }

  /** `m.set(k, v)`: a new key goes last, an existing key keeps its place. */
  function Set<K, V>(m: OMap<K, V>, k: K, v: V): (r: OMap<K, V>)
    ensures Valid(m) ==> Valid(r)
    ensures r.entries == m.entries[k := v]
    ensures k in m.entries ==> r.keys == m.keys
    ensures k !in m.entries ==> r.keys == m.keys + [k]
  {
    if k in m.entries then OMap(m.keys, m.entries[k := v])
    else
      var r := OMap(m.keys + [k], m.entries[k := v]);
      assert Elems(r.keys) == Elems(m.keys) + {k};
      r
  }

  /** The values stored under `keys`, in that order; keys without an entry are skipped. */
  function ValuesAt<K, V>(keys: seq<K>, entries: map<K, V>): (vs: seq<V>)
    ensures |vs| <= |keys|
    ensures (forall i | 0 <= i < |keys| :: keys[i] in entries) ==>
              |vs| == |keys| && forall i | 0 <= i < |keys| :: vs[i] == entries[keys[i]]
    decreases |keys|
  {
    if |keys| == 0 then []
    else if keys[0] in entries then [entries[keys[0]]] + ValuesAt(keys[1..], entries)
    else ValuesAt(keys[1..], entries)
  }

  /** `Array.from(m.values())`. */
  function Values<K, V>(m: OMap<K, V>): seq<V> {
    ValuesAt(m.keys, m.entries)
  }

  /** A valid map lists one value per key, in insertion order. */
  lemma ValuesOfValid<K, V>(m: OMap<K, V>)
    ensures Valid(m) ==> |Values(m)| == |m.keys| == |m.entries|
    ensures Valid(m) ==> forall i | 0 <= i < |m.keys| :: Values(m)[i] == m.entries[m.keys[i]]
  {
    if Valid(m) {
      assert forall i | 0 <= i < |m.keys| :: m.keys[i] in Elems(m.keys);
      NoDupCard(m.keys);
    }
  }
}
