/** Option and Result, the two failure-carrying wrappers the model uses. */
module Wrappers {

  datatype Option<+T> = None | Some(value: T)

  /** Rust's `Result<T, String>`: a value, or the text of an error. */
  datatype Result<+T> = Ok(value: T) | Err(message: string)
}
