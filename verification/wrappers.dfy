/** Optional values and outcomes that can fail, shared by every module. */
module Wrappers {
  datatype Option<T> = None | Some(value: T)

  /** The outcome of an operation that raises an exception in the source. */
  datatype Result<T> = Success(value: T) | Failure(error: string)
}
