/** Option and Result values: a JavaScript `throw` or promise rejection becomes an `Err`. */
module Wrappers {

  datatype Option<+T> = None | Some(value: T)

  datatype Result<+T, +E> = Ok(value: T) | Err(error: E)
}
