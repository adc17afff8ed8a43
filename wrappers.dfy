/** Failure-carrying values standing in for Go's `(value, error)` and `error` returns. */
module Wrappers {

  /** A value that may be absent (a nil pointer or an unset interface in Go). */
  datatype Option<+T> = None | Some(value: T)

  /** `(value, nil)` or `(nil, err)`. */
  datatype Result<+T, +E> = Success(value: T) | Failure(error: E)

  /** A plain Go `error` result: nil (Pass) or an error of kind E (Fail). */
  datatype Outcome<+E> = Pass | Fail(error: E)
}
