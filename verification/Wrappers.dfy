/** Types shared by all modules. */
module Wrappers {
  type Id = int

  datatype Option<+T> = None | Some(value: T)

  datatype Result<+T, +E> = Ok(value: T) | Err(error: E)
}
