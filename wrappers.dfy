/** Option and Result, used for Python's "value or nothing" and "value or exception". */
module Wrappers {

  datatype Option<T> = None | Some(value: T)

  datatype Result<T, E> = Ok(value: T) | Err(error: E)
}
