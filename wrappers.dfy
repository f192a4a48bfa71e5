/** Failure-compatible result type shared by the modules of the model. */
module Wrappers {

  /** Either a normal return value or the reason the call does not return normally. */
  datatype Result<+T, +E> = Success(value: T) | Failure(error: E)
}
