/**
 * A JavaScript object with string keys, as the engine uses it for its
 * dictionaries: the keys in insertion order (what Object.keys returns for
 * non-numeric keys) and the key-to-value map.
 */
module Tables {

  datatype Table<V> = Table(keys: seq<string>, entries: map<string, V>) {

    /** Every key is listed once, and exactly the keys of `entries` are listed. */
    predicate Valid() {
      && (forall i, j :: 0 <= i < j < |keys| ==> keys[i] != keys[j])
      && (forall k :: k in keys ==> k in entries)
      && (forall k :: k in entries ==> k in keys)
    }

    /**
     * Property assignment `obj[k] = v`: a new key goes to the end of the key
     * order, an existing key keeps its place and only its value changes.
     */
    function Put(k: string, v: V): (t: Table<V>)
      ensures Valid() ==> t.Valid()
      ensures t.entries.Keys == entries.Keys + {k} && t.entries[k] == v
      ensures forall k' :: k' in entries && k' != k ==> t.entries[k'] == entries[k']
      ensures Valid() ==> |t.keys| == |keys| + (if k in entries then 0 else 1)
    {
      Table(if k in keys then keys else keys + [k], entries[k := v])
    }

    /** Assigning a key twice leaves the later value, at the place of the first assignment. */
    lemma PutTwice(k: string, v1: V, v2: V)
      ensures Put(k, v1).Put(k, v2) == Put(k, v2)
    {
      assert entries[k := v1][k := v2] == entries[k := v2];
    }
  }

  /** The empty object `{}` */
  function Empty<V>(): (t: Table<V>)
    ensures t.Valid() && t.keys == [] && t.entries == map[]
  {
    Table([], map[])
  }
}
