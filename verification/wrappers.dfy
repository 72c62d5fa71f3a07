/** Option and Result types shared by every module of the invoicing model. */
module Wrappers {

  /** A value that may be absent: a SQL NULL, a missing dictionary key, a query with no row. */
  datatype Option<+T> = None | Some(value: T) {

    /** The wrapped value, or `default` when absent (Python's `x if x is not None else default`). */
    function GetOr(default: T): T {
      match this
      case Some(v) => v
      case None => default
    }
  }

  /** The outcome of an operation that the application can refuse or that the store can reject. */
  datatype Result<+T, +E> = Ok(value: T) | Err(error: E)
}
