/** Option and Result, used for lookups that may find nothing and for
    validations that may fail with a typed error. */
module Wrappers {

  datatype Option<+T> = None | Some(value: T)

  datatype Result<+R, +E> = Success(value: R) | Failure(error: E)
}
