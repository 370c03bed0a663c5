/** Small failure-carrying datatypes shared by the other modules. */
module Wrappers {

  /** An optional value: Ruby's `nil` where a lookup finds nothing. */
  datatype Option<+T> = None | Some(value: T)

  /** The value an operation returns, or the error it raises. */
  datatype Result<+T, +E> = Success(value: T) | Failure(error: E)

  /** Success with no value, or the error raised. */
  datatype Outcome<+E> = Pass | Fail(error: E)
}
