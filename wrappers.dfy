/** Optional values and results shared by every module of the model. */
module Wrappers {
  datatype Option<T> = None | Some(value: T)

  /** The Go pattern `(value, error)` where exactly one side is present. */
  datatype Result<T, E> = Ok(value: T) | Err(error: E)
}
