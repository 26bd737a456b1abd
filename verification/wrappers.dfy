/** Optional values and error returns shared by every module of the model. */
module Wrappers {

  /** A value that may be absent: a file that does not exist, an argument that was not given. */
  datatype Option<+T> = None | Some(value: T)

  /** The outcome of a step that either produces a value or stops with an error. */
  datatype Result<+T, +E> = Success(value: T) | Failure(error: E)
}
