/** Optional and error-carrying values. */
module Wrappers {

  /** A value that may be absent: a price lookup that failed, for instance. */
  datatype Option<+T> = None | Some(value: T)

  /** Either a successful value or an error value. */
  datatype Result<+R, +E> = Success(value: R) | Failure(error: E)
}
