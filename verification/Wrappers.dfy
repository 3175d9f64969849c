/** The error-carrying result type used wherever the Java code throws. */
module Wrappers {

  /** Either the value a call returns or the exception it throws. */
  datatype Result<+T, +E> = Success(value: T) | Failure(error: E)
}
