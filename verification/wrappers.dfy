/** Failure-carrying datatypes used in place of Go's `(value, error)` returns. */
module Wrappers {

  /** Either a value or the error that prevented computing it. */
  datatype Result<+T, +E> = Success(value: T) | Failure(error: E)

  /** Either silent success or an error, for operations that return only `error`. */
  datatype Outcome<+E> = Pass | Fail(error: E)
}
