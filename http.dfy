/** Result and error types shared by the backend's handlers. */
module Http {

  datatype Option<+T> = None | Some(value: T) {
    /** The value, or `default` when absent (Python's `x or default` on an optional list). */
    function GetOr(default: T): T {
      match this
      case Some(v) => v
      case None => default
    }
  }

  /** The HTTP errors the handlers raise through `HTTPException`. */
  datatype HttpError = BadRequest | Unauthorized | Forbidden | NotFound {
    function Code(): int {
      match this
      case BadRequest => 400
      case Unauthorized => 401
      case Forbidden => 403
      case NotFound => 404
    }
  }

  /** A handler's outcome: a response value or the HTTP error it raised. */
  datatype Result<+T> = Ok(value: T) | Err(error: HttpError)
}
