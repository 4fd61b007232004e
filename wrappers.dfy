/** Option and Result, the failure-carrying values used throughout the model. */
module Wrappers {

  /** A value that may be absent: JavaScript's `undefined`/`null`, Python's `None`. */
  datatype Option<+T> = None | Some(value: T) {
    function GetOr(default: T): T {
      match this
      case Some(v) => v
      case None => default
    }
  }

  /** The outcome of a call into an external service: a value, or the error it raised. */
  datatype Result<+R> = Success(value: R) | Failure(error: string)
}
