/** Option and outcome types for the error returns of the Python functions
    (their `None` results and `(False, message)` pairs). */
module Wrappers {

  datatype Option<T> = None | Some(value: T)

  /** A result carrying a value or an error kind. */
  datatype Result<T, E> = Ok(value: T) | Err(error: E)

  /** A success carrying nothing, or an error kind. */
  datatype Outcome<E> = Pass | Fail(error: E)
}
