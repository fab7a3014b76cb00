/** Option and Result: the model's stand-ins for C# null and for error returns. */
module Wrappers {

  /** A value that may be absent, as a C# reference that may be null. */
  datatype Option<+T> = None | Some(value: T)

  /** A computation that either succeeds with a value or fails with an error. */
  datatype Result<+T, +E> = Ok(value: T) | Err(error: E)
}
