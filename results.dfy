/** Optional values and success-or-error results, used wherever the source
    returns None, an empty dict, or a value that SQL may leave NULL. */
module Results {

  datatype Option<+T> = None | Some(value: T) {
    function GetOr(default: T): T {
      match this
      case Some(v) => v
      case None => default
    }
  }

  datatype Result<+R, +E> = Success(value: R) | Failure(error: E)
}
