/** Failure-carrying return types shared by the other modules. */
module Wrappers {

  /** A value that may be absent. */
  datatype Option<+T> = None | Some(value: T)

  /** Either a value or the error the original code raises instead. */
  datatype Result<+R, +E> = Success(value: R) | Failure(error: E)
}
