/** Option and Result datatypes standing in for Rust's `Option<T>` and
    `Result<T, E>` in the model of the shader builder. */
module Wrappers {

  /** An optional value, as returned by `Path::parent` or `Iterator::find`. */
  datatype Option<+T> = None | Some(value: T)

  /** A success value or an error, as returned by the clap value parser and
      by operations that may panic in the source. */
  datatype Result<+R, +E> = Success(value: R) | Failure(error: E)
}
