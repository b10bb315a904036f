/** Optional values and success-or-error results, as used throughout the model. */
module Wrappers {

  datatype Option<+T> = None | Some(value: T)

  /** The outcome of a step that may raise: the value, or the error that aborts the run. */
  datatype Result<+R, +E> = Success(value: R) | Failure(error: E)
}
