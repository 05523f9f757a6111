/** Wrappers used across the model: `Option` for the source's
    `null`/`undefined` results and `Result` for its thrown errors. */
module Wrappers {

  datatype Option<+T> = None | Some(value: T)

  datatype Result<+R, +E> = Success(value: R) | Failure(error: E)
}
