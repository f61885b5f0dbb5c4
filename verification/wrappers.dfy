/** Failure-compatible return values shared by the modules of this project. */
module Wrappers {

  /** An optional value, the model of Rust's `Option`. */
  datatype Option<T> = None | Some(value: T)

  /** A value or an error, the model of Rust's `Result`. */
  datatype Result<T, E> = Ok(value: T) | Err(error: E)
}
