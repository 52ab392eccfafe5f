/** Values shared by every component of the image updater: optional values,
    results of operations that may throw, and what a `catch` block receives. */
module Common {

  datatype Option<+T> = None | Some(value: T)

  /** The outcome of a JavaScript call that either returns a value or throws. */
  datatype Result<+T, +E> = Ok(value: T) | Err(error: E)

  /** What a `catch (error)` clause receives: an `Error` object with its
      `message`, or some other thrown value. */
  datatype Exception = ErrorObject(message: string) | NonError

  /** The outcome of a call whose return value is not used (an awaited git step). */
  datatype Outcome = Done | Threw(exception: Exception)

  /** The text the orchestrator quotes for a caught error: the `message` of an
      `Error`, and "Unknown error" for anything else that was thrown. */
  function ErrorText(e: Exception): string
  {
    match e
    case ErrorObject(m) => m
    case NonError => "Unknown error"
  }
}
