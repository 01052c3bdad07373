/** Optional values and success-or-failure results, used for the optional fields of the
    pipeline-state snapshot and for the handler's resolved value or thrown error. */
module Wrappers {

  /** A value that may be absent (an `undefined` field). */
  datatype Option<+T> = None | Some(value: T)

  /** Either a value or the error that was thrown instead. */
  datatype Result<+R, +E> = Success(value: R) | Failure(error: E)
}
