/** Failure-carrying datatypes shared by the model: an optional value and
    a success-or-error result. */
module Wrappers {

  /** A value that may be absent; used for the outcome of parsing a number. */
  datatype Option<+T> = None | Some(value: T)

  /** The outcome of an operation that either succeeds with a value or is
      rejected with an error. */
  datatype Result<+R, +E> = Success(value: R) | Failure(error: E)
}
