/** Plain result datatypes: a thrown exception of the model is a `Fail` or `Failure` value. */
module Wrappers {

  datatype Option<+T> = None | Some(value: T)

  /** A value, or the error that the source would have thrown instead. */
  datatype Result<+T, +E> = Success(value: T) | Failure(error: E)

  /** The outcome of a call that returns nothing but may throw. */
  datatype Outcome<+E> = Pass | Fail(error: E)
}
