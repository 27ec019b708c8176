/** Result types shared by every component. */
module Wrappers {

  /** A value that may be absent. */
  datatype Option<+T> = None | Some(value: T)

  /** The value of a computation, or the reason it failed. */
  datatype Result<+T, +E> = Success(value: T) | Failure(error: E)
}
