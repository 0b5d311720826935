/** Optional and fallible values: "absent" (pandas NaN, a missing match)
    is `None`, never a sentinel number. */
module Wrappers {

  datatype Option<+T> = None | Some(value: T)

  datatype Result<+R, +E> = Success(value: R) | Failure(error: E)
}
