/** Option and Result values used for Go's `(value, error)` returns and nil-able errors. */
module Wrappers {

  /** A Go value that may be nil: a nil error is `None`. */
  datatype Option<+T> = None | Some(value: T)

  /** A Go `(value, error)` pair where exactly one side is meaningful. */
  datatype Result<+T, +E> = Ok(value: T) | Err(error: E)
}
