/** Results and optional values: Go's `(value, error)` pairs and nil-able values. */
module Wrappers {

  datatype Option<+T> = None | Some(value: T)

  /** A Go `(value, error)` return: the error's text is not part of the model. */
  datatype Result<+T> = Ok(value: T) | Err
}
