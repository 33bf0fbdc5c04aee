/** Option and Result, the failure-carrying values used throughout the model. */
module Wrappers {

  datatype Option<+T> = None | Some(value: T)

  /** The outcome of a fallible call: Rust's `anyhow::Result`, Kotlin's try/catch. */
  datatype Result<+T, +E> = Ok(value: T) | Err(error: E)
}
