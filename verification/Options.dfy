/** The stock result types. */
module Options {
  datatype Option<+T> = None | Some(value: T)

  datatype Result<+T> = Ok(value: T) | Failed

  /** `m.get(k)`. */
  function Get<K, V>(m: map<K, V>, k: K): Option<V> {
    if k in m then Some(m[k]) else None
  }
}
