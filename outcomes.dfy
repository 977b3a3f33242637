/** Success/failure values standing in for the exceptions the screener's
    library calls may raise. */
module Outcomes {

  datatype Option<+T> = None | Some(value: T)

  /** `Failure` carries the text of the exception that was raised. */
  datatype Result<+T> = Success(value: T) | Failure(message: string)
}
