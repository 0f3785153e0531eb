// Optional values and results shared by all modules: Java's null and
// thrown exceptions are modelled as values of these types.
module Wrappers {

  datatype Option<T> = None | Some(value: T)

  datatype Result<T, E> = Ok(value: T) | Err(error: E)
}
