/** The optional value used for absent request parameters, absent map keys
    and a missing request context. */
module Wrappers {

  datatype Option<+T> = None | Some(value: T)

  /** Map lookup that reports a missing key instead of requiring it. */
  function Get<K, V>(m: map<K, V>, k: K): (r: Option<V>)
    ensures r.Some? <==> k in m
    ensures r.Some? ==> r.value == m[k]
  {
    if k in m then Some(m[k]) else None
  }
}
