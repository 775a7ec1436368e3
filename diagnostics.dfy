/**
 * The endpoints and components that exist only to fail: two server
 * functions and two components returning a fixed error.
 */
module Diagnostics {
  import opened Wrappers
  import opened Errors
  import opened ServerFn

  /** `cause_internal_server_error`: always fails with a generic server error. */
  function CauseInternalServerError(): (r: Result<(), ServerFnError>)
    ensures r.Err? && AppErrorOf(r.error) == None
    ensures r == Err(ServerError("Generic Server Error"))
  {
    Err(ServerError("Generic Server Error"))
  }

  /**
   * `cause_not_implemented_error` as written: always fails, but with a
   * generic server error that carries no application error kind, not with
   * NotImplementedError.
   */
  function CauseNotImplementedError(): (r: Result<(), ServerFnError>)
    ensures r.Err? && AppErrorOf(r.error) == None
    ensures r == Err(ServerError("Not Implemented Server Error"))
  {
    Err(ServerError("Not Implemented Server Error"))
  }

  /**
   * The endpoint registered under the name NotImplementedError does not
   * report the NotImplementedError kind, so its failure cannot be mapped
   * to status 501 through the application's classification.
   */
  lemma NotImplementedEndpointLosesKind()
    ensures CauseNotImplementedError().Err?
    ensures AppErrorOf(CauseNotImplementedError().error) != Some(NotImplementedError)
    ensures StatusCodeOf(NotImplementedError) == 501
  {
  }

  /** `cause_not_implemented_error` as its name intends: fails with the NotImplementedError kind, status 501. */
  function CauseNotImplementedErrorIntended(): (r: Result<(), ServerFnError>)
    ensures r.Err? && AppErrorOf(r.error) == Some(NotImplementedError)
    ensures StatusCodeOf(AppErrorOf(r.error).value) == 501
    ensures Message(AppErrorOf(r.error).value) == "Not Implemented"
  {
    Err(WrappedServerError(NotImplementedError))
  }

  /** The `ReturnsServerError` component: always the InternalServerError kind, status 500. */
  function ReturnsServerError(): (r: Result<string, AppError>)
    ensures r == Err(InternalServerError)
    ensures StatusCodeOf(r.error) == 500 && Message(r.error) == "Internal Server Error"
  {
    Err(InternalServerError)
  }

  /** The `ReturnsNotImplementedError` component: always the NotImplementedError kind, status 501. */
  function ReturnsNotImplementedError(): (r: Result<string, AppError>)
    ensures r == Err(NotImplementedError)
    ensures StatusCodeOf(r.error) == 501 && Message(r.error) == "Not Implemented"
  {
    Err(NotImplementedError)
  }
}
