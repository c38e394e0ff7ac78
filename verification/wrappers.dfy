/** Failure-carrying datatypes shared by the whole model: Rust's `Option` and `Result`. */
module Wrappers {

  /** Rust `Option<T>`. */
  datatype Option<+T> = None | Some(value: T)

  /** Rust `Result<T, E>`. */
  datatype Result<+T, +E> = Ok(value: T) | Err(error: E)
}
