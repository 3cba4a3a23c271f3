/** Failure-compatible result types shared by every module. */
module Wrappers {

  /** A value that may be absent (Python's `X | None`). */
  datatype Option<+T> = None | Some(value: T)

  /** The result of an operation that may raise. */
  datatype Result<+T, +E> = Success(value: T) | Failure(error: E)
}
