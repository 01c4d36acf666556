/** Optional values and results with an error, the two shapes the ranking engine
    returns instead of `None` and instead of raising. */
module Wrappers {

  datatype Option<+T> = None | Some(value: T)

  datatype Result<+T, +E> = Success(value: T) | Failure(error: E)
}
