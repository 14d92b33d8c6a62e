/** Failure-compatible wrappers used throughout the model: a lookup that may
    find nothing, and an operation that either succeeds or raises an error. */
module Wrappers {

  datatype Option<+T> = None | Some(value: T)

  datatype Result<+R, +E> = Success(value: R) | Failure(error: E)
}
