/** Optional values and results with an error, shared by the modules of this model. */
module Wrappers {

  /** A value that may be absent (Java's `null` or an empty `Optional`). */
  datatype Option<+T> = None | Some(value: T)

  /** The outcome of an operation that either returns a value or throws an exception. */
  datatype Result<+R, +E> = Success(value: R) | Failure(error: E)
}
