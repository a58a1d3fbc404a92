/** Option and Result, used for the driver's nullable slots and its exceptions. */
module Wrappers {

  datatype Option<+T> = None | Some(value: T)

  /** A computation that either yields a value or fails with an error (a thrown exception in the driver). */
  datatype Result<+T, +E> = Success(value: T) | Failure(error: E)

  /** A step that either passes or fails with an error, carrying no value. */
  datatype Outcome<+E> = Pass | Fail(error: E)
}
