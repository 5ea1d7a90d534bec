/** Option and Result: Go's nil pointers, nil collections and error returns. */
module Wrappers {

  /** `None` stands for a Go nil (pointer, map or slice). */
  datatype Option<+T> = None | Some(value: T)

  /** A Go `(value, error)` pair: `Err` carries the error text. */
  datatype Result<+T> = Ok(value: T) | Err(message: string)
}
