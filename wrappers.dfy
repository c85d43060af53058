/** Optional values: a field the source may leave undefined or null, a value
    that may be missing, and JavaScript's `Infinity` day count. */
module Wrappers {

  datatype Option<+T> = None | Some(value: T) {

    /** The value, or `default` when there is none (JavaScript's `x ?? d`). */
    function GetOr(default: T): T {
      match this
      case Some(v) => v
      case None => default
    }
  }

  /** The outcome of a submit handler: the payload it would send, or the
      reason it stopped before any network call. */
  datatype Result<+T, +E> = Ok(value: T) | Err(error: E)
}
