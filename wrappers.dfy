/** Failure-carrying values used where the source throws or returns null. */
module Wrappers {

  datatype Option<+T> = None | Some(value: T)

  /** A value, or the message of the exception the source would throw. */
  datatype Result<+R> = Success(value: R) | Failure(error: string)

  /** Completion of an operation that returns nothing: it finished, or it threw. */
  datatype Outcome = Pass | Fail(error: string)
}
