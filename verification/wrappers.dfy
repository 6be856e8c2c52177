/** Optional values and success-or-error results, shared by the store and the service. */
module Wrappers {

  /** A value that may be absent, as a nullable column or a lookup that found nothing. */
  datatype Option<+T> = None | Some(value: T)

  /** The outcome of an operation that either produces a value or raises an error. */
  datatype Result<+T, +E> = Success(value: T) | Failure(error: E)
}
