/** Option and Result, the two failure-carrying datatypes the model uses. */
module Wrappers {

  datatype Option<+T> = None | Some(value: T)

  /** Ok carries the value of a completed call; Err the exception that aborted it. */
  datatype Result<+T, +E> = Ok(value: T) | Err(error: E)
}
