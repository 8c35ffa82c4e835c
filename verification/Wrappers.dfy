/** Values that may be missing. */
module Wrappers {
  datatype Option<T> = None | Some(value: T)

  /** A length that may be missing, with `n` more in front. */
  function Longer(n: nat, r: Option<nat>): Option<nat> {
    if r.None? then None else Some(n + r.value)
  }
}
