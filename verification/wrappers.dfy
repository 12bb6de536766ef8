/** Failure-carrying values used by both pipelines: Python's `None` and raised exceptions. */
module Wrappers {

  /** A value that may be absent, as Python's `None`. */
  datatype Option<+T> = None | Some(value: T)

  /** Either a computed value or the exception that stopped the computation. */
  datatype Result<+T, +E> = Ok(value: T) | Err(error: E)
}
