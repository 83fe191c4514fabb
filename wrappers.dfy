/** Option and Result, used where the Java code has null or throws. */
module Wrappers {

  /** Some value, or None where the Java code holds null. */
  datatype Option<+T> = None | Some(value: T)

  /** A value, or the exception the Java code would throw instead. */
  datatype Result<+T, +E> = Success(value: T) | Failure(error: E)
}
