/** Failure-carrying wrappers shared by the translator model. */
module Wrappers {

  /** An optional value. */
  datatype Option<+T> = None | Some(value: T)

  /** A value, or the error the translator raises instead of producing it. */
  datatype Result<+R, +E> = Success(value: R) | Failure(error: E)
}
