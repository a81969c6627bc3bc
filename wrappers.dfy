/** Optional values and results with an error, used across the model. */
module Wrappers {

  /** A value that may be absent (the source's `null`). */
  datatype Option<+T> = None | Some(value: T)

  /** Either a value or the reason the input was rejected. */
  datatype Result<+R, +E> = Success(value: R) | Failure(error: E)
}
