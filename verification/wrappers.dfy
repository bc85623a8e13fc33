/** The optional-value and value-or-error types used across the model. */
module Wrappers {

  /** A value that may be absent (Python's `None`). */
  datatype Option<+T> = None | Some(value: T)

  /** Either a computed value or the reason the computation was refused. */
  datatype Result<+R, +E> = Success(value: R) | Failure(error: E)
}
