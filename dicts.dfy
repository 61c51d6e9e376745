/** An insertion-ordered dictionary keyed by login: a JavaScript `Map` or a Python `dict`. */
module Dicts {
  import opened Wrappers

  /** `keys` is the insertion order, `values` the mapping. */
  datatype Dict<V> = Dict(keys: seq<string>, values: map<string, V>)

  /** Every key once in the order, and the order holds exactly the mapped keys. */
  ghost predicate Valid<V>(d: Dict<V>)
  {
    (forall i, j :: 0 <= i < j < |d.keys| ==> d.keys[i] != d.keys[j]) &&
    (forall k :: k in d.values <==> k in d.keys)
  }

  function Empty<V>(): (d: Dict<V>)
    ensures Valid(d) && d.values == map[]
  {
    Dict([], map[])
  }

  /** `map.set(k, v)` / `dict[k] = v`: a new key goes last, an existing key keeps its place. */
  function Put<V>(d: Dict<V>, k: string, v: V): (r: Dict<V>)
  {
    if k in d.values then Dict(d.keys, d.values[k := v])
    else Dict(d.keys + [k], d.values[k := v])
  }

  /** `Put` keeps every key once in the order. */
  lemma PutKeepsValid<V>(d: Dict<V>, k: string, v: V)
    requires Valid(d)
    ensures Valid(Put(d, k, v))
    ensures Put(d, k, v).values == d.values[k := v]
    ensures Put(d, k, v).keys == if k in d.values then d.keys else d.keys + [k]
  {
  }

  /** `get` after `set`: the key just set yields the new value, every other key what it yielded before. */
  lemma GetAfterPut<V>(d: Dict<V>, k: string, v: V, k2: string)
    ensures Get(Put(d, k, v), k) == Some(v)
    ensures k2 != k ==> Get(Put(d, k, v), k2) == Get(d, k2)
  {
  }

  /** `map.get(k)`, `undefined` when absent. */
  function Get<V>(d: Dict<V>, k: string): (r: Option<V>)
    ensures r.Some? <==> k in d.values
    ensures r.Some? ==> r.value == d.values[k]
  {
    if k in d.values then Some(d.values[k]) else None
  }
}
