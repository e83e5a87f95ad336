/** Failure-carrying results shared by the other modules. */
module Wrappers {

  datatype Option<+T> = None | Some(value: T)

  /** The result of an operation that the C program would abort on. */
  datatype Result<+R, +E> = Success(value: R) | Failure(error: E)
}
