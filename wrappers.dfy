/** Option and Result, the nullable column and the failed statement of the model. */
module Wrappers {

  /** A nullable value: `None` is SQL NULL (or an absent JSON field). */
  datatype Option<+T> = None | Some(value: T)

  /** The outcome of a statement that may raise a storage error. */
  datatype Result<+R, +E> = Success(value: R) | Failure(error: E)
}
