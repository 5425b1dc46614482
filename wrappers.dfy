/** Option and Result, the stock failure-compatible wrappers used throughout. */
module Wrappers {

  datatype Option<+T> = None | Some(value: T)

  /** A JavaScript call either returns a value or throws. */
  datatype Result<+R, +E> = Success(value: R) | Failure(error: E)
}
