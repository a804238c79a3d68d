/** Option and Result, shared by the model. */
module Wrappers {

  /** An optional value: a response field that may be absent. */
  datatype Option<+T> = None | Some(value: T)

  /** The outcome of a step that either yields a value or stops the cycle with an error. */
  datatype Result<+T, +E> = Success(value: T) | Failure(error: E)
}
