/** Option and Result, the shapes every partial operation of the model returns. */
module Wrappers {

  datatype Option<+T> = None | Some(value: T)

  /** The value of a Go `(T, error)` pair, or of a Python call that may raise. */
  datatype Result<+T, +E> = Ok(value: T) | Err(error: E)
}
