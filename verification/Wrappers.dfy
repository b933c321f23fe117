/** Option and Result, shared by every module. */
module Wrappers {

  datatype Option<+T> = None | Some(value: T)

  /** The source's exceptions become `Failure` values. */
  datatype Result<+T, +E> = Success(value: T) | Failure(error: E)
}
