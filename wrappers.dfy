/** Option and Result values used in place of Python's None and raised exceptions. */
module Wrappers {

  /** A value that may be absent (Python's `X | None`). */
  datatype Option<+T> = None | Some(value: T)

  /** Either a value or a typed error (an HTTPException in the handlers). */
  datatype Result<+T, +E> = Ok(value: T) | Err(error: E)
}
