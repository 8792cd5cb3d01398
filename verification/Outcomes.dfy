/** Values that may be missing, and results that may be an error thrown instead. */
module Outcomes {
  datatype Option<T> = None | Some(value: T)

  datatype Result<T, E> = Ok(value: T) | Thrown(error: E)
}
