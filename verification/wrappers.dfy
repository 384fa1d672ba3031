/** Failure-compatible wrappers: an explicit "missing" value (pandas' NaN / None)
    and the outcome of an operation that can raise. */
module Wrappers {

  /** A value that may be missing. */
  datatype Option<+T> = None | Some(value: T) {

    /** The wrapped value, or `default` when missing (numpy's nan_to_num, pandas' fillna). */
    function GetOr(default: T): T {
      match this
      case Some(v) => v
      case None => default
    }
  }

  /** The value of an operation, or the error it raises. */
  datatype Result<+T, +E> = Ok(value: T) | Err(error: E)
}
