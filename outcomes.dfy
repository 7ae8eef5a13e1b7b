/** Results shared by the element, molecule and registry models. */
module Outcomes {

  /** A value that may be absent; Python's `None` in an element slot. */
  datatype Option<+T> = None | Some(value: T)

  /** The exceptions the core lets escape to its callers. */
  datatype Error =
    | ElementNotDefined  // raised by the registry lookup
    | ZeroDivision       // Python's ZeroDivisionError from a `/` by zero

  /** A call that either returns a value or raises one of the errors above. */
  datatype Result<+T> = Success(value: T) | Failure(error: Error)

  /**
   * What a call returns when the source hands back a `TypeError` instance as
   * its ordinary return value (rather than raising it) on a wrongly typed argument.
   */
  datatype Returned<+T> = Value(v: T) | TypeErrorObject(message: string)
}
