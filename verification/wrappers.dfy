/** Failure-compatible result type used for the binding's error path. */
module Wrappers {

  /** Either a value or the error that the caller sees instead of it. */
  datatype Result<+R, +E> = Success(value: R) | Failure(error: E)
}
