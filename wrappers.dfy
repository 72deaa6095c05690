/** Failure-compatible wrappers used throughout the model: a JavaScript value that may be
    `undefined` becomes an `Option`, an early error response becomes a `Result`. */
module Wrappers {

  datatype Option<+T> = None | Some(value: T)

  datatype Result<+R, +E> = Success(value: R) | Failure(error: E)
}
