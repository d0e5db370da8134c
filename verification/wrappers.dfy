/** Option and Result wrappers used throughout the model. */
module Wrappers {

  /** A possibly absent value: stands for a nullable pointer. */
  datatype Option<+T> = None | Some(value: T)

  /** A value or an error: stands for `absl::StatusOr<T>`. */
  datatype Result<+T, +E> = Success(value: T) | Failure(error: E)
}
