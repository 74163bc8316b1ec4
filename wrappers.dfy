/** Failure-carrying values used in place of the C++ exceptions of the injector. */
module Wrappers {

  datatype Option<+T> = None | Some(value: T)

  /** The outcome of an operation that returns a value or fails with an error. */
  datatype Result<+R, +E> = Success(value: R) | Failure(error: E)

  /** The outcome of an operation that returns nothing or fails with an error. */
  datatype Outcome<+E> = Pass | Fail(error: E)
}
