/** Failure-carrying results, standing in for Python's exceptions and sentinel returns. */
module Wrappers {

  datatype Option<T> = None | Some(value: T)

  datatype Result<T, E> = Ok(value: T) | Err(error: E)
}
