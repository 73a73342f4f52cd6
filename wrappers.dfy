/** Option, Result and Outcome: the nullable values and thrown exceptions of the service. */
module Wrappers {

  /** A Java reference that may be null. */
  datatype Option<+T> = None | Some(value: T)

  /** A value, or the exception that the Java code throws instead of returning it. */
  datatype Result<+T, +E> = Success(value: T) | Failure(error: E)

  /** A check that passes, or fails with the exception it throws. */
  datatype Outcome<+E> = Pass | Fail(error: E)
}
