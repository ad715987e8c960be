/** Small datatypes for optional values and for the error paths of the model. */
module Wrappers {

  datatype Option<T> = None | Some(value: T)

  /** The outcome of an operation that either completes or raises an error. */
  datatype Outcome<E> = Pass | Fail(error: E)

  datatype Result<T, E> = Success(value: T) | Failure(error: E)
}
