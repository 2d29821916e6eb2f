/** Failure-compatible wrappers shared by every module of the model. */
module Wrappers {

  /** A value that may be absent: the model of `T | undefined` and `T | null`. */
  datatype Option<+T> = None | Some(value: T) {

    /** Returns the wrapped value, or `default` when absent. */
    function GetOr(default: T): T {
      match this
      case Some(v) => v
      case None => default
    }
  }

  /** Either a value or an error: the model of an operation that can refuse its input. */
  datatype Result<+R, +E> = Success(value: R) | Failure(error: E)
}
