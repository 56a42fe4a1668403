/** A value that may be missing: JavaScript's `null`/`undefined` and Java's `null`. */
module Wrappers {

  datatype Option<+T> = None | Some(value: T)

  /** Looks a key up the way `Map.get` and `sessionStorage.getItem` do: a missing key gives `None`. */
  function Get<K, V>(m: map<K, V>, k: K): (r: Option<V>)
    ensures r.Some? <==> k in m
    ensures r.Some? ==> r.value == m[k]
  {
    if k in m then Some(m[k]) else None
  }
}
