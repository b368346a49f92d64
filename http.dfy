/** Outcomes shared by the handlers: an optional value, and a handler
    result that is either a value or the HTTPException it raises. */
module Http {

  datatype Option<+T> = None | Some(value: T)

  /** The error raised by a handler: status code, `detail` text and the
      response headers it carries. */
  datatype HttpException = HttpException(status: int, detail: string, headers: map<string, string>)

  /** What a handler returns: its response body, or the exception it raises. */
  datatype Result<+T> = Ok(value: T) | Err(error: HttpException)
}
