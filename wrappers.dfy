/** Optional and fallible values: JavaScript's `null` slots and early-return errors. */
module Wrappers {

  /** A value that may be absent (`null` in the application state, or a missing storage slot). */
  datatype Option<+T> = None | Some(value: T)

  /** The outcome of a check that either accepts with a value or rejects with a reason. */
  datatype Result<+T, +E> = Success(value: T) | Failure(error: E)
}
