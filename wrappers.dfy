/** Option and Result values shared by every module of the model. */
module Wrappers {

  /** A value that may be missing: a pandas null (NaN / None) is `None`. */
  datatype Option<+T> = None | Some(value: T)

  /** The outcome of an operation that the source can abort with an exception. */
  datatype Result<+T, +E> = Ok(value: T) | Err(error: E)
}
