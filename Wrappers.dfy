/** Option and Result: C#'s null and thrown exceptions, made explicit. */
module Wrappers {

  /** A reference that may be null. */
  datatype Option<+T> = None | Some(value: T)

  /** Either a value or the exception the C# code would have thrown. */
  datatype Result<+T, +E> = Ok(value: T) | Err(error: E)
}
