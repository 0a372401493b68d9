/** Option and Result, the failure-carrying values used across the model. */
module Wrappers {

  datatype Option<+T> = None | Some(value: T)

  /** The value of an operation that either completes or throws. */
  datatype Result<+T, +E> = Success(value: T) | Failure(error: E)
}
