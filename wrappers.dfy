/** Option and Result values for the operations that can fail. */
module Wrappers {

  datatype Option<T> = None | Some(value: T)

  /** Ok carries a value; Err carries what Python would raise instead. */
  datatype Result<T, E> = Ok(value: T) | Err(error: E)
}
