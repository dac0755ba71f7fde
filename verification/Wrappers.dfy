/** Failure-carrying results shared by every component. */
module Wrappers {

  datatype Option<+T> = None | Some(value: T)

  datatype Result<+T, +E> = Ok(value: T) | Err(error: E)

  /** The reply of an operation that returns nothing on success. */
  datatype Unit = Unit
}
