/** The optional-value and result datatypes shared by every module of the model. */
module Wrappers {

  /** A value that may be absent: the model of a Java reference that may be null. */
  datatype Option<+T> = None | Some(value: T)

  /** The outcome of an operation that may throw: a value or the error it raised. */
  datatype Result<+T, +E> = Success(value: T) | Failure(error: E)
}
