/** Result types that stand for the source's exceptions. */
module Wrappers {

  /** A value that may be absent: the analyzer's cached tables start as `None`. */
  datatype Option<+T> = None | Some(value: T)

  /** The result of an operation that either returns a value or raises. */
  datatype Result<+T, +E> = Success(value: T) | Failure(error: E)

  /** The result of an operation that returns nothing or raises. */
  datatype Outcome<+E> = Pass | Fail(error: E)
}
