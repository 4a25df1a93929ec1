/** Option and Result: `null` returns and thrown exceptions of the modelled code. */
module Wrappers {

  /** `None` stands for a C# `null` reference. */
  datatype Option<+T> = None | Some(value: T)

  /** `Failure` stands for an exception thrown synchronously to the caller. */
  datatype Result<+R, +E> = Success(value: R) | Failure(error: E)
}
