/** Failure-compatible wrappers used for absent values and error paths. */
module Wrappers {

  /** A value that may be absent: a lookup that finds nothing, a line that does not match. */
  datatype Option<+T> = None | Some(value: T)

  /** The outcome of an operation that can fail with a diagnostic. */
  datatype Result<+T, +E> = Success(value: T) | Failure(error: E)
}
