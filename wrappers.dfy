/** The `Option` and `Result` types shared by every module. */
module Wrappers {

  /** Python's `X | None`: a value that may be absent. */
  datatype Option<+T> = None | Some(value: T)

  /** A computation that either produces a value or raises an error. */
  datatype Result<+T, +E> = Success(value: T) | Failure(error: E)
}
