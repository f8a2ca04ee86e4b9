/** Failure-carrying result types shared by every parser of the model. */
module Wrappers {

  /** A value that may be missing: `None` is a parse that ran out of bytes. */
  datatype Option<+T> = None | Some(value: T)

  /** A value or the reason the read was abandoned. */
  datatype Result<+T, +E> = Ok(value: T) | Err(error: E)
}
