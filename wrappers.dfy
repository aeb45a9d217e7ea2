/** Optional values and results with an error, as used by the rest of the model. */
module Wrappers {

  /** A value that may be absent (the source's `Optional[...]` and `None`). */
  datatype Option<+T> = None | Some(value: T)

  /** The outcome of a validation: a value, or the error that rejected the input. */
  datatype Result<+R, +E> = Ok(value: R) | Err(error: E)
}
