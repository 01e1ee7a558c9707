/** Failure-carrying result types used across the model. */
module Wrappers {

  /** A value that may be absent: the model's reading of a Java `null` return. */
  datatype Option<+T> = None | Some(value: T)

  /** A value or the exception a Java method would have thrown instead. */
  datatype Result<+T, +E> = Success(value: T) | Failure(error: E)
}
