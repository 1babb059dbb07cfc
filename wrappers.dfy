/** Option, Result and Outcome: the values by which the model reports what Python
    reports by returning None or by raising. */
module Wrappers {

  datatype Option<+T> = None | Some(value: T)

  /** The result of an operation that either produces a value or raises. */
  datatype Result<+T, +E> = Success(value: T) | Failure(error: E)

  /** The result of an operation that returns nothing or raises. */
  datatype Outcome<+E> = Pass | Fail(error: E)
}
