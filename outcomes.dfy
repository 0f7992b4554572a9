/** Optional values and results with a typed error, used wherever the
    service returns `null` or throws. */
module Outcomes {

  datatype Option<+T> = None | Some(value: T)

  datatype Result<+T, +E> = Success(value: T) | Failure(error: E)
}
