/** Optional values and results with an error, shared by the modules. */
module Wrappers {
  datatype Option<T> = None | Some(value: T)
  datatype Result<T, E> = Ok(value: T) | Err(error: E)
}
