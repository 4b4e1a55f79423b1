/** Optional values and error-carrying results, standing in for Python's `None`
    and for the exceptions the mapping layer can raise. */
module Wrappers {

  /** A value that may be absent (`Optional[...]` in the source). */
  datatype Option<+T> = None | Some(value: T) {

    /** Returns the value, or `default` when absent. */
    function GetOr(default: T): T {
      match this
      case Some(v) => v
      case None => default
    }
  }

  /** Either a computed value or the error that aborted the computation. */
  datatype Result<+R, +E> = Success(value: R) | Failure(error: E)
}
