/** Failure-carrying values used for the Go functions that return an `error`. */
module Wrappers {

  datatype Option<T> = None | Some(value: T)

  /** A value or an error, for Go's `(T, error)` results. */
  datatype Result<T, E> = Success(value: T) | Failure(error: E)

  /** Success or an error, for Go functions that return only an `error`. */
  datatype Outcome<E> = Pass | Fail(error: E)
}
