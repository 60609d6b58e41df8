/** Option and Result, the two failure-carrying shapes the handlers return. */
module Wrappers {

  /** A value that may be absent (Python's `Optional[T]`, `None` for absence). */
  datatype Option<+T> = None | Some(value: T)

  /** Either a handler's response or the error it raises. */
  datatype Result<+T, +E> = Ok(value: T) | Err(error: E)
}
