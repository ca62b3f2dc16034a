/** Optional values and results with an error message, shared by every module. */
module Wrappers {

  /** A value that may be absent (`undefined` in the original program). */
  datatype Option<+T> = None | Some(value: T)

  /** The outcome of an operation that may throw: its value, or the thrown error's message. */
  datatype Result<+R, +E> = Success(value: R) | Failure(error: E)
}
