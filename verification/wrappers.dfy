/** Small failure-compatible datatypes shared by the PostLog model. */
module Wrappers {

  /** A value that may be absent; for a table, `None` means the table does not exist. */
  datatype Option<+T> = None | Some(value: T)

  /** The outcome of an operation that may raise instead of returning. */
  datatype Result<+R, +E> = Success(value: R) | Failure(error: E)
}
