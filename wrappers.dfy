/** Option and Result, the shapes Rust's `Option` and `Result` take in this model. */
module Wrappers {
  datatype Option<+T> = None | Some(value: T)

  datatype Result<+R, +E> = Success(value: R) | Failure(error: E)
}
