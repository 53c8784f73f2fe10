/** Failure-carrying values shared by the other modules: a missing value, a
    computation that yields a value or an error, and one that only passes or
    fails. */
module Wrappers {

  datatype Option<+T> = None | Some(value: T)

  datatype Result<+R, +E> = Success(value: R) | Failure(error: E)

  datatype Outcome<+E> = Pass | Fail(error: E)
}
