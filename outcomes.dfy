/** Option and Result, the two failure-carrying shapes the Rust code returns. */
module Outcomes {

  datatype Option<+T> = None | Some(value: T)

  /** `anyhow::Result<T>`: a value, or an error of kind `E`. */
  datatype Result<+T, +E> = Ok(value: T) | Err(error: E)
}
