/** Failure-carrying results: the model's replacement for the tools' fatal exits. */
module Wrappers {

  datatype Option<T> = None | Some(value: T)

  datatype Result<T, E> = Ok(value: T) | Err(error: E)
}
