/**
 * The error type a server function returns to its caller. `ServerError` is
 * the only variant the application produces; `WrappedServerError` is
 * modelled only for the corrected endpoint
 * `Diagnostics.CauseNotImplementedErrorIntended`.
 */
module ServerFn {
  import opened Wrappers
  import opened Errors

  datatype ServerFnError =
    | /** A failure described by a message; a database error converted with `?` lands here. */
      ServerError(message: string)
    | /** A failure carrying the application's own error kind. */
      WrappedServerError(error: AppError)

  /** The application error kind a server-function error carries, if it carries one. */
  function AppErrorOf(e: ServerFnError): (r: Option<AppError>)
    ensures r.Some? <==> e.WrappedServerError?
    ensures e.WrappedServerError? ==> r.value == e.error
  {
    match e
    case ServerError(_) => None
    case WrappedServerError(a) => Some(a)
  }
}
