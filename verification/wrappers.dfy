/** Failure-compatible wrappers shared by the whole model. */
module Wrappers {

  /** Python's `None` or a present value. */
  datatype Option<+T> = None | Some(value: T)

  /** The outcome of a step that may raise: a value, or the fault that aborted it. */
  datatype Result<+T, +E> = Success(value: T) | Failure(error: E)
}
