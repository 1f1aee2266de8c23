/**
 * An insertion-ordered map, as provided by the `indexmap` crate: every key is
 * listed once in `keys`, in the order it was first inserted, and `entries`
 * holds the value of each key. Re-inserting a present key replaces its value
 * and keeps its position; inserting a new key appends it.
 */
module IndexMaps {
  import opened Common

  datatype IndexMap<K(==, !new), V> = IndexMap(keys: seq<K>, entries: map<K, V>)
  {
    /** `keys` has no duplicates and lists exactly the keys of `entries`. */
    ghost predicate Valid() {
      && (forall i, j :: 0 <= i < j < |keys| ==> keys[i] != keys[j])
      && (forall k :: k in entries <==> k in keys)
    }

    /** `IndexMap::get`. */
    function Get(k: K): (r: Option<V>)
      ensures r.Some? <==> k in entries
      ensures r.Some? ==> r.value == entries[k]
    {
      if k in entries then Some(entries[k]) else None
    }

    /** `IndexMap::insert` and the `Entry` API's insert on either kind of entry. */
    function Insert(k: K, v: V): (m: IndexMap<K, V>)
      requires Valid()
      ensures m.Valid()
      ensures m.entries == entries[k := v]
      ensures m.keys == if k in entries then keys else keys + [k]
    {
      if k in entries then IndexMap(keys, entries[k := v])
      else IndexMap(keys + [k], entries[k := v])
    }

    /** `IndexMap::values`: the values, in key order. */
    function Values(): (vs: seq<V>)
      requires Valid()
      ensures |vs| == |keys|
      ensures forall i :: 0 <= i < |keys| ==> vs[i] == entries[keys[i]]
    {
      seq(|keys|, i requires 0 <= i < |keys| => entries[keys[i]])
    }
  }

  function Empty<K(==, !new), V>(): (m: IndexMap<K, V>)
    ensures m.Valid() && m.keys == [] && m.entries == map[]
  {
    IndexMap([], map[])
  }
}
