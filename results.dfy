/** Failure-carrying wrappers used for the nil-or-value and value-or-error returns of the scheduler. */
module Results {

  /** A value that may be absent (a nil NodeInfo in Go). */
  datatype Option<+T> = None | Some(value: T)

  /** A value or an error, as a Go `(T, error)` pair. */
  datatype Result<+T, +E> = Success(value: T) | Failure(error: E)

  /** The outcome of an operation that returns only an `error`. */
  datatype Outcome<+E> = Pass | Fail(error: E)

  /** The error values of this model: Go `error` strings. */
  type Error = string
}
