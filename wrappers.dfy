/** Failure-carrying values used by the pipeline model. */
module Wrappers {

  /** A value that may be missing; `None` stands for a null (NaN) cell. */
  datatype Option<+T> = None | Some(value: T)

  /** The outcome of a step that can raise: `Err` carries what the exception reports. */
  datatype Result<+T, +E> = Ok(value: T) | Err(error: E)
}
