/** Plain value-or-absence and value-or-error types shared by the whole model. */
module Wrappers {

  /** `None` stands for a Java `null` reference or for "no match". */
  datatype Option<+T> = None | Some(value: T)

  /** The outcome of an operation that either yields a value or raises an exception. */
  datatype Result<+T, +E> = Success(value: T) | Failure(error: E)
}
