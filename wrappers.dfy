/** Option and Result, the shapes every Go `(value, error)` pair of the model is written in. */
module Wrappers {

  datatype Option<+T> = None | Some(value: T)

  datatype Result<+R, +E> = Success(value: R) | Failure(error: E)
}
