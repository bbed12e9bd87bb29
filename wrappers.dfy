/** Option and Result, used where the source returns null or throws. */
module Wrappers {

  /** A value that may be absent: the source's `null`. */
  datatype Option<+T> = None | Some(value: T)

  /** The outcome of an operation that the source ends with `throw` on failure. */
  datatype Result<+R, +E> = Success(value: R) | Failure(error: E)
}
