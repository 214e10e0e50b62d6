/**
 * Shared result types of the backend: every service either answers a value
 * or throws an `HttpError(status, message)`, which the model returns as `Err`.
 */
module Common {

  datatype Option<+T> = None | Some(value: T)

  /** The `HttpError` the services throw; the status is the HTTP answer. */
  datatype HttpError = HttpError(status: int, message: string)

  /** A service call: a value, or the HttpError it throws. */
  datatype Result<+T> = Ok(value: T) | Err(error: HttpError)

  /** A validator or guard: passes, or throws the first failing check's error. */
  datatype Outcome = Pass | Fail(error: HttpError)

  /**
   * An exception that is not an `HttpError` (a database or runtime error)
   * thrown where no service catches it; the application's error handler
   * answers 500. Its message is not modelled.
   */
  const Unexpected := HttpError(500, "")

  /** Status code of a failed call, or 200 for a call that did not fail. */
  function StatusOf<T>(r: Result<T>): int
  {
    if r.Err? then r.error.status else 200
  }

  /** Status code of a failed check, or 200 for a check that passed. */
  function OutcomeStatus(o: Outcome): int
  {
    if o.Fail? then o.error.status else 200
  }
}
