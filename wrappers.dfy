/** Optional values and error-carrying results, standing in for Python's
    None / NaN and for the error branches of the supplier check-in form. */
module Wrappers {

  /** `None` models a missing cell (Python `None`, pandas NaN). */
  datatype Option<+T> = None | Some(value: T)

  /** Outcome of an operation that can be rejected. */
  datatype Result<+R, +E> = Success(value: R) | Failure(error: E)
}
