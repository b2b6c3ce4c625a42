/** Optional values and results with an error, shared by every module of the model. */
module Wrappers {

  /** A value that may be missing: Python's None, JavaScript's undefined. */
  datatype Option<+T> = None | Some(value: T)

  /** Either a value or the error that replaced it. */
  datatype Result<+T, +E> = Success(value: T) | Failure(error: E)
}
