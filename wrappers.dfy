/** Optional values and success-or-error results, shared by the stream-path modules. */
module Wrappers {

  /** An optional value: an absent error, an absent rebind target. */
  datatype Option<+T> = None | Some(value: T)

  /** The outcome of an operation that may be rejected with an error value. */
  datatype Result<+R, +E> = Success(value: R) | Failure(error: E)
}
