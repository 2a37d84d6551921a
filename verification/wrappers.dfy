/** Failure-compatible wrappers for values that may be absent (Python's `None`)
    and for operations that may raise. */
module Wrappers {

  /** A value that may be missing, like a Python attribute that may be `None`. */
  datatype Option<+T> = None | Some(value: T) {

    /** Returns the wrapped value, or `default` when there is none. */
    function GetOr(default: T): T {
      match this
      case Some(v) => v
      case None => default
    }
  }

  /** Either a value or the message of the exception the Python code would raise. */
  datatype Result<+R> = Success(value: R) | Failure(error: string)
}
