/** Option and Result, the failure-compatible wrappers used throughout the model. */
module Wrappers {

  /** Python's `Optional[...]`: `None` or a present value. */
  datatype Option<+T> = None | Some(value: T)

  /** The outcome of an operation that may raise: a value or the error it raised. */
  datatype Result<+T, +E> = Success(value: T) | Failure(error: E)
}
