/** Option and result types used across the model. */
module Wrappers {

  datatype Option<+T> = None | Some(value: T)

  /** Go's `(value, error)` pair: either a value or an error message. */
  datatype Result<+T> = Ok(value: T) | Err(error: string)
}
