/** Optional values and failure-carrying results, standing in for JavaScript's
    `null`/`undefined` and for exceptions that escape a call. */
module Wrappers {

  datatype Option<+T> = None | Some(value: T)

  datatype Result<+T, +E> = Success(value: T) | Failure(error: E)
}
