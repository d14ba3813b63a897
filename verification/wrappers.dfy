/** Optional values (a NaN is `None`) and failure-carrying results (used where the modelled code throws). */
module Wrappers {

  datatype Option<+T> = None | Some(value: T)

  datatype Result<+R, +E> = Success(value: R) | Failure(error: E)
}
