/** Small helper types shared by every module. */
module Common {
  /** A value that may be missing: Python's None, an absent key, JavaScript's null. */
  datatype Option<+T> = None | Some(value: T) {
    function GetOr(default: T): T {
      match this
      case Some(v) => v
      case None => default
    }
  }

  /** The outcome of a call that either returns or is refused. */
  datatype Result<+T, +E> = Success(value: T) | Failure(error: E)
}
