/** Option and Result wrappers shared by the model. */
module Wrappers {

  /** A value that may be absent (Python's `None`). */
  datatype Option<+T> = None | Some(value: T)

  /** The outcome of a computation that may raise: `Failure` carries the
      name of the Python exception that escapes. */
  datatype Result<+T> = Success(value: T) | Failure(error: string)
}
