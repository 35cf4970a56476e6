/** Option and Result values standing for Go's nil-able results and (value, error) pairs. */
module Wrappers {

  /** A value that may be absent (a nil pointer, a nil error). */
  datatype Option<+T> = None | Some(value: T)

  /** Either a value or an error message (Go's `(T, error)` with exactly one of them set). */
  datatype Result<+T> = Ok(value: T) | Err(error: string)
}
