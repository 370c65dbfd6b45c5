/** Failure-compatible datatypes shared by the model: a value that may be
    absent (a JavaScript `null`/`undefined`), and a result that is either a
    value or an error message. */
module Wrappers {

  datatype Option<+T> = None | Some(value: T) {

    /** The value, or `default` when absent. */
    function GetOr(default: T): T {
      match this
      case Some(v) => v
      case None => default
    }
  }

  datatype Result<+R, +E> = Success(value: R) | Failure(error: E)
}
