/** Failure-carrying return types shared by the other modules. */
module Wrappers {

  /** A value that may be missing, used for parsers whose error detail is dropped. */
  datatype Option<+T> = None | Some(value: T)

  /** Rust's `Result<T, E>`: a value or an error. */
  datatype Result<+T, +E> = Success(value: T) | Failure(error: E)
}
