/** The optional-value and result wrappers shared by the other modules. */
module Wrappers {

  /** A value that may be absent (JavaScript `null`/`undefined`, or a parse that failed). */
  datatype Option<+T> = None | Some(value: T) {
    function GetOr(default: T): T {
      match this
      case Some(v) => v
      case None => default
    }
  }

  /** The outcome of an operation that may throw. */
  datatype Result<+R, +E> = Success(value: R) | Failure(error: E) {
    /** Forgets the success value, keeping the failure. */
    function MapSuccess(): Result<(), E>
    {
      match this
      case Success(_) => Success(())
      case Failure(e) => Failure(e)
    }
  }
}
