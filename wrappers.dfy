/** Option and Result: the model's stand-ins for C# nullable values and thrown exceptions. */
module Wrappers {

  /** `None` plays the part of C#'s `null`. */
  datatype Option<+T> = None | Some(value: T)

  /** `Failure` plays the part of an exception that propagates to the caller. */
  datatype Result<+R, +E> = Success(value: R) | Failure(error: E)
}
