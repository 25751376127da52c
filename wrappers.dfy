/** Null references and thrown exceptions, as values. */
module Wrappers {

  /** `None` stands for a null reference, `Some(v)` for a non-null one. */
  datatype Option<+T> = None | Some(value: T)

  /** The outcome of a call that either returns a value or throws an exception. */
  datatype Result<+R, +E> = Success(value: R) | Failure(error: E)
}
