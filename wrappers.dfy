/** Option and Result, the two wrappers the configuration code returns. */
module Wrappers {

  /** A value that may be absent (Rust's `Option`). */
  datatype Option<+T> = None | Some(value: T)

  /** A value or an error (Rust's `Result`). */
  datatype Result<+R, +E> = Ok(value: R) | Err(error: E)
}
