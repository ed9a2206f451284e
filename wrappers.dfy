/** Option and Result, standing for a nullable pointer and for a
    fatal-or-successful outcome of the C code. */
module Wrappers {
  datatype Option<+T> = None | Some(value: T)

  datatype Result<+T, +E> = Success(value: T) | Failure(error: E)
}
