/** Optional values and results shared by every module of the model. */
module Wrappers {

  /** Ruby's `nil` (None) or a present value (Some). */
  datatype Option<+T> = None | Some(value: T)

  /** The outcome of an operation that raises in the source: a value or the error it raises. */
  datatype Result<+T, +E> = Success(value: T) | Failure(error: E)
}
