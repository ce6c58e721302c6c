/** Option and Result values shared by the modules of this model. */
module Wrappers {

  datatype Option<+T> = None | Some(value: T)

  /** A value or an error; Go's `(T, error)` pairs become this. */
  datatype Result<+T, +E> = Ok(value: T) | Err(error: E)
}
