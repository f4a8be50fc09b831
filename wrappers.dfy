/** Option and Result types shared by the three puzzle modules. */
module Wrappers {

  datatype Option<+T> = None | Some(value: T)

  /** The value of a fallible computation, or the error that aborted it. */
  datatype Result<+T, +E> = Success(value: T) | Failure(error: E)
}
