/** Optional values and success/failure results shared by every module. */
module Wrappers {

  /** A value that may be absent: a missing field, an unset variable, `undefined`. */
  datatype Option<+T> = None | Some(value: T) {

    /** The wrapped value, or `default` when absent. */
    function GetOr(default: T): T {
      match this
      case Some(v) => v
      case None => default
    }
  }

  /** The outcome of an operation that can fail with an error value. */
  datatype Result<+R, +E> = Success(value: R) | Failure(error: E)
}
