/** Option, Result and Outcome, shared by every module of the model. */
module Wrappers {

  datatype Option<T> = None | Some(value: T)

  /** A value or an error, standing for Go's `(T, error)` return pair. */
  datatype Result<T, E> = Ok(value: T) | Err(error: E)

  /** Success or an error, standing for a Go function that returns only `error`. */
  datatype Outcome<E> = Pass | Fail(error: E)
}
