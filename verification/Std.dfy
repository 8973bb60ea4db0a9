/** Datatypes shared by the models: an optional value, and a result that carries an error. */
module Std {

  datatype Option<+T> = None | Some(value: T)

  datatype Result<+T, +E> = Ok(value: T) | Err(error: E)
}
