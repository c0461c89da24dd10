/** Failure-carrying result types shared by the other modules. */
module Wrappers {

  /** A value that may be missing: an input file that could not be read is `None`. */
  datatype Option<+T> = None | Some(value: T)

  /** Either a value or the error that prevented computing it. */
  datatype Result<+R, +E> = Success(value: R) | Failure(error: E)
}
