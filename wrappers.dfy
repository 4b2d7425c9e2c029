/** Option and Result, the "absent value" and "error or value" wrappers used by the model. */
module Wrappers {

  /** An optional value: `None` plays the part of pandas' NaN / NaT / None. */
  datatype Option<+T> = None | Some(value: T)

  /** The outcome of an operation that can raise. */
  datatype Result<+R, +E> = Success(value: R) | Failure(error: E)
}
