/** Option and Result, used wherever the Python code returns None or raises. */
module Wrappers {

  /** A value that may be absent (Python's `Optional[...]`, None as `None`). */
  datatype Option<+T> = None | Some(value: T)

  /** The outcome of an operation that either produces a value or raises an error. */
  datatype Result<+R, +E> = Success(value: R) | Failure(error: E)
}
