/** Small failure-carrying wrappers shared by the model. */
module Wrappers {

  /** PHP's `null` or a value. */
  datatype Option<+T> = None | Some(value: T)

  /** A value, or the exception the PHP code would raise instead. */
  datatype Result<+T, +E> = Ok(value: T) | Err(error: E)
}
