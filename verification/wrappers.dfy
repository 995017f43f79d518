/** Failure-carrying wrappers used throughout the model: an optional value
    for attributes that may be absent, and a result for operations whose
    Python counterparts raise. */
module Wrappers {

  /** An attribute or value that may be absent (Python's None). */
  datatype Option<+T> = None | Some(value: T) {

    /** The wrapped value, or `default` when absent. */
    function GetOr(default: T): T {
      match this
      case Some(v) => v
      case None => default
    }
  }

  /** The outcome of an operation that either returns a value or raises. */
  datatype Result<+T, +E> = Success(value: T) | Failure(error: E)
}
