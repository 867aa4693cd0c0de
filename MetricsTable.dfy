/** A Python dict keyed by trace name: its keys in insertion order beside
    the key-to-value mapping.  Assigning to a key that is already present
    replaces the value and leaves the key where it was. */
module MetricsTable {
  import opened Outcomes

  datatype Table<V> = Table(keys: seq<string>, entries: map<string, V>) {

    /** What every dict satisfies: each key listed once, and exactly the
        mapped keys listed. */
    ghost predicate Valid() {
      (forall i, j :: 0 <= i < j < |keys| ==> keys[i] != keys[j])
      && (forall k :: k in entries <==> k in keys)
    }
  }

  /** `{}` */
  function Empty<V>(): (t: Table<V>)
    ensures t.Valid() && t.keys == [] && t.entries == map[]
  {
    Table([], map[])
  }

  /** `t[k]`: the value at `k`, or KeyError. */
  function Get<V>(t: Table<V>, k: string): (r: Result<V>)
    ensures r.Ok? <==> k in t.entries
    ensures r.Ok? ==> r.value == t.entries[k]
    ensures r.Err? ==> r.error == KeyNotFound(k)
  {
    if k in t.entries then Ok(t.entries[k]) else Err(KeyNotFound(k))
  }

  /** `t[k] = v` */
  function Insert<V>(t: Table<V>, k: string, v: V): (r: Table<V>)
    ensures t.Valid() ==> r.Valid()
    ensures Get(r, k) == Ok(v)
    ensures forall k' :: k' != k ==> Get(r, k') == Get(t, k')
    // the existing keys keep their order and position; a new key goes last
    ensures t.Valid() ==> r.keys == if k in t.entries then t.keys else t.keys + [k]
  {
    Table(if k in t.entries then t.keys else t.keys + [k], t.entries[k := v])
  }
}
