/** Failure-compatible wrappers used in place of Python's `None` and of
    raised validation exceptions. */
module Wrappers {

  /** `None` stands for a missing value (Python `None`, an absent key). */
  datatype Option<+T> = None | Some(value: T)

  /** The outcome of a validator: the accepted value, or the error it raised. */
  datatype Result<+T, +E> = Success(value: T) | Failure(error: E)
}
