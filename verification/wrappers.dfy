/** Failure-carrying datatypes shared by the whole model, and the Python
    exception kinds the bank-account code raises. */
module Wrappers {

  /** An optional value; `None` stands for Python's `None` argument. */
  datatype Option<+T> = None | Some(value: T) {

    /** The wrapped value, or `default` when there is none. */
    function GetOr(default: T): T {
      match this
      case Some(v) => v
      case None => default
    }
  }

  /** Either a computed value or the exception the Python code raises. */
  datatype Result<+T> = Success(value: T) | Failure(error: Exception)

  /** The three Python exception classes the modelled code can raise, each
      with the message text it is raised with. */
  datatype Exception =
    | ValueError(message: string)
    | AttributeError(message: string)
    | OverflowError(message: string)
}
