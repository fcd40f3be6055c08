/** Failure-compatible result types shared by the two components. */
module Wrappers {

  /** A value that may be absent (JavaScript `null`, or NaN for a statistic with no defined value). */
  datatype Option<+T> = None | Some(value: T)

  /** The outcome of an operation that may throw. */
  datatype Result<+T, +E> = Success(value: T) | Failure(error: E)
}
