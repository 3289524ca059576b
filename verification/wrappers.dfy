/** Optional values and results with an error value, used for the parser's
    "no entry on this line" case and for the path builder's exception. */
module Wrappers {

  datatype Option<+T> = None | Some(value: T)

  datatype Result<+T, +E> = Success(value: T) | Failure(error: E)
}
