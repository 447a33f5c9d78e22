/** Option and Result: a Java `null` and a Java exception, as values. */
module Wrappers {

  datatype Option<+T> = None | Some(value: T) {
    function GetOr(default: T): T {
      match this
      case Some(v) => v
      case None => default
    }
  }

  datatype Result<+R, +E> = Success(value: R) | Failure(error: E)

  /** A call that returns nothing: it either completes or throws `error`. */
  datatype Outcome<+E> = Pass | Fail(error: E)
}
