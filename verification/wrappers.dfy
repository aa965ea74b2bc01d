/** Failure-carrying values standing in for the exceptions the Python code raises. */
module Wrappers {

  /** Either a value or the message of the exception that was raised instead. */
  datatype Result<+T, +E> = Ok(value: T) | Err(error: E)
}
