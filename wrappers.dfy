/** Optional values and error-or-value results, used for nullable fields,
    lookups that may miss, and HTTP error responses. */
module Wrappers {

  datatype Option<+T> = None | Some(value: T)

  datatype Result<+R, +E> = Success(value: R) | Failure(error: E)
}
