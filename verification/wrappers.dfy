/** Option and Result, the two failure-carrying shapes the model uses. */
module Wrappers {

  /** A value that may be undefined. */
  datatype Option<+T> = None | Some(value: T) {

    /** JavaScript's `a || b` when `a` is either undefined or an hrtime
        array (an array is always truthy): `a` if defined, else `b`. */
    function OrElse(fallback: T): T {
      match this
      case Some(v) => v
      case None => fallback
    }
  }

  /** The outcome of an operation that may throw. */
  datatype Result<+R, +E> = Success(value: R) | Failure(error: E)
}
