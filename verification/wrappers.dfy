/** Failure-carrying datatypes shared by the rest of the model. */
module Wrappers {

  /** A value that may be absent. */
  datatype Option<+T> = None | Some(value: T)

  /** Either a computed value or a description of what went wrong. */
  datatype Result<+T, +E> = Success(value: T) | Failure(error: E)
}
