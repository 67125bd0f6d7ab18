/** Option and Result, the two failure-carrying datatypes the model uses. */
module Wrappers {

  /** A value that may be absent, as java.util.Optional. */
  datatype Option<+T> = None | Some(value: T)

  /** Either a value or the exception that took its place. */
  datatype Result<+T, +E> = Success(value: T) | Failure(error: E)
}
