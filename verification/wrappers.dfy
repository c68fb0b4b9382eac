/** Option and Result, the failure-carrying values every handler returns. */
module Wrappers {

  datatype Option<+T> = None | Some(value: T)

  /** A handler either answers with a value or refuses with an error. */
  datatype Result<+T, +E> = Success(value: T) | Failure(error: E)
}
