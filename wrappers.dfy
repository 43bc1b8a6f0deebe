/** Option and Result, the stock failure-carrying datatypes used across the model. */
module Wrappers {

  datatype Option<+T> = None | Some(value: T)

  /** A Go `(value, error)` pair where the value only matters when there is no error. */
  datatype Result<+T> = Ok(value: T) | Err(message: string)
}
