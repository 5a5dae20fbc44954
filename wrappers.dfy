/** Java's null and thrown exceptions as values. */
module Wrappers {

  /** A value that may be absent (Java's null). */
  datatype Option<+T> = None | Some(value: T)

  /** The outcome of an operation that may throw. */
  datatype Result<+T, +E> = Success(value: T) | Failure(error: E)
}
