/** Failure-carrying results shared by every module of the model. */
module Wrappers {

  /** A value that may be absent (JavaScript `null`/`undefined` results). */
  datatype Option<+T> = None | Some(value: T)

  /** The outcome of an operation that may throw: `Err` carries the reason. */
  datatype Result<+T, +E> = Ok(value: T) | Err(error: E)
}
