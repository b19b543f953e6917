/** Option and Result values used for the error paths of the model. */
module Wrappers {

  datatype Option<+T> = None | Some(value: T)

  /** A Success/Failure value; Failure stands for a Python exception that ends the call. */
  datatype Result<+R, +E> = Success(value: R) | Failure(error: E)
}
