/** Optional values and fallible results, used where the source has `undefined`
    or throws. */
module Wrappers {

  /** A value that may be absent (`undefined` / `null` in the source). */
  datatype Option<+T> = None | Some(value: T)

  /** The outcome of an operation that either returns a value or throws an
      error carrying a message. */
  datatype Result<+T, +E> = Success(value: T) | Failure(error: E)
}
