/** Optional values, used where server.js reads a key that may be
    absent from a JSON object (JavaScript's `undefined`). */
module Wrappers {

  datatype Option<+T> = None | Some(value: T) {

    /** The wrapped value, or `default` when there is none. server.js writes this as
        `v || 0` on sword counts; a present count of 0 is falsy there too, but it
        also yields 0, so the result is the same. */
    function GetOr(default: T): T {
      match this
      case Some(v) => v
      case None => default
    }
  }

  /** Looks a key up in a map, giving `None` where JavaScript would give `undefined`. */
  function Get<K, V>(m: map<K, V>, k: K): Option<V>
  {
    if k in m then Some(m[k]) else None
  }
}
