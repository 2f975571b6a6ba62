/** Failure-carrying wrappers shared by the relay and the log scanner. */
module Results {

  /** A value that may be absent: Python's `None` or a missing dictionary key. */
  datatype Option<+T> = None | Some(value: T) {

    /** The wrapped value, or `default` when absent (Python's `d.get(k, default)`). */
    function GetOr(default: T): T {
      match this
      case Some(v) => v
      case None => default
    }
  }

  /** The outcome of a computation that may raise: a value or the error it stopped with. */
  datatype Result<+T, +E> = Success(value: T) | Failure(error: E)
}
