/** Values shared by the three handlers: optional values, and how a request ends. */
module Results {

  /** A value that may be absent (Python's `None`). */
  datatype Option<T> = None | Some(value: T) {

    /** The value, or `default` when there is none (`dict.get(key, default)`). */
    function GetOr(default: T): T {
      if Some? then value else default
    }
  }

  /** How a request ends when it does not return normally: an HTTP error raised on
      purpose by a handler, or an exception that no handler catches (FastAPI answers
      those with a 500). */
  datatype Failure =
    | HttpError(status: nat, detail: string)
    | Uncaught(exception: string)

  /** The outcome of one handler call. */
  datatype Result<T> = Ok(value: T) | Err(failure: Failure)
}
