/** The four process-wide error handlers: each turns an aborted status into a
    fixed `{success: false, error, message}` record with that same status. */
module Errors {
  import opened Model

  /** The statuses that have a registered error handler. */
  predicate Handled(code: int)
  {
    code == BadRequest || code == NotFound || code == ServerError || code == Unprocessable
  }

  /** The fixed message of each handler. */
  function Message(code: int): string
    requires Handled(code)
  {
    if code == BadRequest then "Bad request error"
    else if code == NotFound then "Resource not found"
    else if code == ServerError then "An error has occured, please try again"
    else "Unprocessable entity"
  }

  /** The response the handler registered for `code` produces. */
  function ErrorResponse(code: int): (r: Response)
    requires Handled(code)
    ensures r.status == code && !r.body.Success()
    ensures r.body.ErrorBody? && r.body.error == code && |r.body.message| > 0
  {
    Response(code, ErrorBody(code, Message(code)))
  }
}
