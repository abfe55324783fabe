/** Failure-carrying values used wherever the program returns `None` or
    catches an exception instead of producing a value. */
module Wrappers {

  /** A value that may be absent, as Python's `None` is. */
  datatype Option<+T> = None | Some(value: T) {

    /** The wrapped value, or `default` when absent. */
    function GetOr(default: T): T {
      match this
      case Some(v) => v
      case None => default
    }
  }

  /** The outcome of a call into a collaborator that may raise. */
  datatype Result<+R, +E> = Success(value: R) | Failure(error: E)
}
