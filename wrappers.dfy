/** Option and Result, the two failure-compatible wrappers the model uses:
    `Option` for Python's "value or None", `Result` for "value or an exception
    that the source does not catch". */
module Wrappers {

  datatype Option<+T> = None | Some(value: T)

  datatype Result<+T, +E> = Ok(value: T) | Err(error: E)
}
