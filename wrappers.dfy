/** Option and Result values for the operations whose Go originals return a
    "found" flag or panic. */
module Wrappers {

  datatype Option<+T> = None | Some(value: T)

  datatype Result<+T, +E> = Success(value: T) | Failure(error: E)
}
