/** Optional values and error returns, for Python's `None` and the backend's error replies. */
module Wrappers {

  datatype Option<T> = None | Some(value: T)

  datatype Result<T, E> = Ok(value: T) | Err(error: E)
}
