/** What a handler of the trivia service answers: a value, or one of the two
    error classes its routes raise with `abort`. */
module Outcomes {

  /** The two error classes of the service; the error handlers answer them
      with HTTP 404 ("not found") and 422 ("unprocessable entity"). */
  datatype Status = NotFound | Unprocessable {
    function Code(): int {
      match this
      case NotFound => 404
      case Unprocessable => 422
    }
  }

  datatype Option<+T> = None | Some(value: T)

  /** A handler's outcome: `Ok` is a 200 response with the given fields,
      `Err` the error envelope with the given status. */
  datatype Result<+T> = Ok(value: T) | Err(error: Status)
}
