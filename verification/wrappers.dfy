/** Option and Result, the two failure-carrying datatypes the model uses. */
module Wrappers {

  /** A value that may be absent: a request field that was not supplied. */
  datatype Option<+T> = None | Some(value: T) {

    /** The value, or `default` when absent (a field's declared default). */
    function GetOr(default: T): T {
      match this
      case Some(v) => v
      case None => default
    }
  }

  /** Either a value or the reason it could not be produced. */
  datatype Result<+R, +E> = Success(value: R) | Failure(error: E)
}
