/** Shared value types: optional values (pandas' missing cells) and results (raised errors). */
module Types {

  /** A cell that may be missing (NaN / None in the data frame). */
  datatype Option<T> = None | Some(value: T) {
    function GetOr(default: T): T {
      match this
      case Some(v) => v
      case None => default
    }
  }

  /** The outcome of a step that may raise. */
  datatype Result<T, E> = Success(value: T) | Failure(error: E)
}
