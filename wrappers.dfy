/** Failure-carrying values used across the model. */
module Wrappers {

  /** A value that may be missing: an absent file, an absent header, a failed parse. */
  datatype Option<+T> = None | Some(value: T) {

    /** The carried value, or `default` when there is none. */
    function GetOr(default: T): (r: T)
      ensures Some? ==> r == value
      ensures None? ==> r == default
    {
      match this
      case Some(v) => v
      case None => default
    }
  }

  /** The outcome of a step that either succeeds with a value or raises an error. */
  datatype Result<+T, +E> = Ok(value: T) | Err(error: E)
}
