/** Small failure-carrying datatypes shared by the other modules. */
module Wrappers {

  /** A value that may be absent (an optional argument, a failed parse). */
  datatype Option<+T> = None | Some(value: T)

  /** The value of a call that either returns or reverts with an error. */
  datatype Result<+T, +E> = Success(value: T) | Failure(error: E)

  /** The outcome of a call that returns nothing when it succeeds. */
  datatype Outcome<+E> = Pass | Fail(error: E)
}
