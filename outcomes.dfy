/** Optional values and error returns shared by the picklist tools. */
module Outcomes {

  /** A value that may be absent, as Python's `None`. */
  datatype Option<+T> = None | Some(value: T)

  /** The result of an operation that can raise instead of returning. */
  datatype Result<+R, +E> = Success(value: R) | Failure(error: E)
}
