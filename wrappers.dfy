/** Failure-compatible wrappers for lookups that may miss and runs that may raise. */
module Wrappers {
  datatype Option<+T> = None | Some(value: T)

  datatype Result<+R, +E> = Success(value: R) | Failure(error: E)
}
