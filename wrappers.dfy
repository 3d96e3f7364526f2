/** Option, Result and Outcome: the nullable references and the exceptions of the
    modelled code become values of these types. */
module Wrappers {

  /** A nullable value: `None` is C#'s null. */
  datatype Option<+T> = None | Some(value: T) {

    /** The `??` operator: the value, or `default` when null. */
    function GetOr(default: T): T {
      match this
      case Some(v) => v
      case None => default
    }
  }

  /** The value of a call that either returns or throws. */
  datatype Result<+T, +E> = Success(value: T) | Failure(error: E)

  /** The outcome of a call that returns nothing or throws. */
  datatype Outcome<+E> = Pass | Fail(error: E)
}
