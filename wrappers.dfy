/** Failure-carrying results for the operations that throw in the catalog. */
module Wrappers {

  datatype Option<+T> = None | Some(value: T)

  /** The outcome of a constructor that either builds a value or aborts with an error. */
  datatype Result<+R, +E> = Success(value: R) | Failure(error: E)

  /** The outcome of an operation that either completes or aborts with an error. */
  datatype Outcome<+E> = Pass | Fail(error: E)
}
