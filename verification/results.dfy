/** Optional values and error-carrying results used throughout the model.
    `Option` stands for JavaScript's `undefined`/`null` (a missing field or a
    null return), `Result` for an operation that either produces a value or
    throws an `Error` with a message. */
module Results {

  datatype Option<+T> = None | Some(value: T) {

    /** The wrapped value, or `default` when absent. */
    function GetOr(default: T): T {
      match this
      case Some(v) => v
      case None => default
    }
  }

  datatype Result<+T> = Ok(value: T) | Err(message: string)
}
