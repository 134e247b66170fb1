/** Optional values and success-or-failure results. */
module Wrappers {

  /** A value that may be absent: an undefined column, a null query parameter. */
  datatype Option<+T> = None | Some(value: T)

  /** The outcome of an operation that can reject its input. */
  datatype Result<+T, +E> = Success(value: T) | Failure(error: E)
}
