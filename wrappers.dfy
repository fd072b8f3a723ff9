/** Optional values and error-carrying results, used wherever the Python code
    returns None or raises. */
module Wrappers {

  datatype Option<+T> = None | Some(value: T)

  datatype Result<+R, +E> = Ok(value: R) | Err(error: E)
}
