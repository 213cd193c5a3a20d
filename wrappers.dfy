/** Optional values and results with an error, for the widget's failure paths. */
module Wrappers {

  /** A value that may be absent (an `undefined` or `null` option). */
  datatype Option<+T> = None | Some(value: T)

  /** The outcome of an operation that can throw. */
  datatype Result<+R, +E> = Success(value: R) | Failure(error: E)
}
