/** Optional values and the error results the route handlers answer with. */
module Common {

  /** A value that may be absent: JavaScript's `null` / `undefined`. */
  datatype Option<+T> = None | Some(value: T)

  /** The error payloads a handler returns instead of a report. */
  datatype Failure =
    | BadRequest(message: string)   // answered with HTTP 400
    | NotFound(message: string)     // answered with HTTP 404

  datatype Result<+T> = Ok(value: T) | Err(failure: Failure)

  /** The HTTP status code a failure is reported with. */
  function StatusCode(f: Failure): (code: int)
    ensures code == 400 <==> f.BadRequest?
    ensures code == 404 <==> f.NotFound?
  {
    match f
    case BadRequest(_) => 400
    case NotFound(_) => 404
  }

  function Max(a: int, b: int): (m: int)
    ensures m >= a && m >= b
    ensures m == a || m == b
  {
    if a >= b then a else b
  }
}
