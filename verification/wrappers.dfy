/** `Option` and `Result`, shared by every module of the model. */
module Wrappers {

  /** An optional value: the source's `None` / missing-key cases. */
  datatype Option<+T> = None | Some(value: T)

  /** Either a value or the exception that the source would raise instead. */
  datatype Result<+R, +E> = Success(value: R) | Failure(error: E)
}
