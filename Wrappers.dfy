/** An optional value, used across the model. */
module Wrappers {

  /** A value that may be absent: a missing dict key, a ratio that is not printed. */
  datatype Option<+T> = None | Some(value: T) {

    /** The wrapped value, or `default` when there is none (Python's `d.get(k, default)`). */
    function GetOr(default: T): T {
      match this
      case Some(v) => v
      case None => default
    }
  }
}
