/** Optional values and results with an error, as used throughout the model. */
module Options {

  /** A value that may be absent: an optional field of a record, or a missing parameter. */
  datatype Option<T> = None | Some(value: T) {

    /** The value, or `default` when absent (JavaScript's `x || default` on an optional array). */
    function GetOr(default: T): T {
      match this
      case Some(v) => v
      case None => default
    }
  }

  /** The outcome of a decoder: a value, or the reason it could not be produced. */
  datatype Result<T, E> = Ok(value: T) | Err(error: E)
}
