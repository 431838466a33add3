/** Option and Result values that stand in for Java's nullable references and thrown exceptions. */
module Wrappers {

  /** A value that may be missing, as a nullable Java reference or an `Optional`. */
  datatype Option<+T> = None | Some(value: T)

  /** The outcome of a call that returns a value or throws. */
  datatype Result<+T, +E> = Success(value: T) | Failure(error: E)

  /** The outcome of a `void` call that may throw. */
  datatype Outcome<+E> = Pass | Fail(error: E)
}
