/** Absent cells and failing operations. */
module Wrappers {

  /** A cell that may be absent (pandas' NaN / None). */
  datatype Option<+T> = None | Some(value: T) {

    /** The value, or `default` when absent: pandas' `fillna(default)` on one cell. */
    function GetOr(default: T): T
    {
      match this
      case Some(v) => v
      case None => default
    }
  }

  /** The outcome of an operation that may raise. */
  datatype Result<+R, +E> = Success(value: R) | Failure(error: E)
}
