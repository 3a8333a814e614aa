/** Option, Result and Outcome: the ways the model signals "undefined" and thrown errors. */
module Wrappers {

  /** `None` stands for JavaScript's `undefined` where the source can produce it. */
  datatype Option<+T> = None | Some(value: T)

  /** A value, or the error the source throws instead. */
  datatype Result<+T, +E> = Success(value: T) | Failure(error: E)

  /** A guard that either passes or throws. */
  datatype Outcome<+E> = Pass | Fail(error: E)
}
