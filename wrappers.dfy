/** A value that may be missing: JavaScript's `null`/`undefined`, or the NaN
    of a failed number parse. */
module Wrappers {

  datatype Option<+T> = None | Some(value: T)

  /** Looks a key up in a map, `None` when it is absent (`Storage.getItem`'s `null`). */
  function Get<K, V>(m: map<K, V>, key: K): (r: Option<V>)
    ensures r.Some? <==> key in m
  {
    if key in m then Some(m[key]) else None
  }
}
