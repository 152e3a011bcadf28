/** Failure-carrying values shared by the whole project. */
module Wrappers {

  datatype Option<+T> = None | Some(value: T)

  /** A Go `(value, error)` pair: exactly one side is present. */
  datatype Result<+T, +E> = Ok(value: T) | Err(error: E)
}
