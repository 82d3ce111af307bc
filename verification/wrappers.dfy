/** Failure-carrying values shared by every module of the bridge model. */
module Wrappers {

  /** A value that may be absent: Python's `None` or a missing dictionary entry. */
  datatype Option<+T> = None | Some(value: T) {

    /** The wrapped value, or `default` when there is none (Python's `dict.get(key, default)`). */
    function GetOr(default: T): T {
      match this
      case Some(v) => v
      case None => default
    }
  }

  /** The outcome of an operation that either produces a value or stops with a message. */
  datatype Result<+T, +E> = Ok(value: T) | Err(error: E)
}
