/** Success-or-failure values: how the model spells the source's C++ exceptions. */
module Wrappers {

  datatype Result<+T, +E> = Ok(value: T) | Err(error: E)

  datatype Option<+T> = None | Some(value: T)
}
