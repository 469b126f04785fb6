/** Option and Result values shared by every module of the model. */
module Wrappers {

  datatype Option<T> = None | Some(value: T)

  /** The outcome of an operation that the Java code may end by throwing. */
  datatype Result<T, E> = Ok(value: T) | Err(error: E)
}
