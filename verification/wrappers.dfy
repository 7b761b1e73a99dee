/** Failure-carrying values used where the script either returns a value or raises. */
module Wrappers {

  /** A value that may be absent. */
  datatype Option<+T> = None | Some(value: T)

  /** Either a successful value or the error the script would raise. */
  datatype Result<+R, +E> = Success(value: R) | Failure(error: E)
}
