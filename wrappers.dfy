/** Option and Result, standing for Go's nil and its (T, error) returns. */
module Wrappers {

  /** An optional value: Go's nil pointer or a missing result. */
  datatype Option<+T> = None | Some(value: T)

  /** A value or an error, as in Go's `(T, error)` returns. */
  datatype Result<+R, +E> = Success(value: R) | Failure(error: E)
}
