/** Failure-compatible wrapper types shared by every module of the model. */
module Wrappers {

  /** An optional value: the model's counterpart of std::optional / boost::optional. */
  datatype Option<+T> = None | Some(value: T)

  /** A value or an error: the model's counterpart of a function that may throw. */
  datatype Result<+R, +E> = Success(value: R) | Failure(error: E)
}
