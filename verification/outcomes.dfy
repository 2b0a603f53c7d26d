/** Optional values and results with an error case. */
module Outcomes {

  /** A value that may be missing (a blank or unparseable form field). */
  datatype Option<T> = None | Some(value: T)

  /** The result of an operation that can be rejected. */
  datatype Result<T, E> = Success(value: T) | Failure(error: E)
}
