/** Failure-compatible result types shared by the generator and the analyser. */
module Wrappers {

  /** A value that may be missing (a Java call that would throw, modelled as `None`). */
  datatype Option<+T> = None | Some(value: T)

  /** Either a value or the reason the computation was abandoned. */
  datatype Result<+T, +E> = Success(value: T) | Failure(error: E)
}
