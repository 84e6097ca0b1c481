/** Option and Result, the failure-carrying values the model uses in place of
    Python's `None` and of raised exceptions. */
module Wrappers {

  datatype Option<+T> = None | Some(value: T)

  datatype Result<+R, +E> = Success(value: R) | Failure(error: E)
}
