/** Option and Result datatypes shared by the other modules. */
module Wrappers {

  /** A value that may be missing, like a `null` from `localStorage.getItem`. */
  datatype Option<+T> = None | Some(value: T)

  /** The outcome of an operation that can throw. */
  datatype Result<+R, +E> = Success(value: R) | Failure(error: E)
}
