/** Optional values and results with an error, used wherever the analysed script
    has a missing value (NaN, None) or raises an exception. */
module Wrappers {

  datatype Option<T> = None | Some(value: T)

  datatype Result<T, E> = Success(value: T) | Failure(error: E)
}
