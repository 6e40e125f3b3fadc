/** Optional values and results with an error, standing in for Python's
    `None` and for exceptions raised by built-in operations. */
module Wrappers {

  datatype Option<+T> = None | Some(value: T)

  datatype Result<+T, +E> = Ok(value: T) | Err(error: E)
}
