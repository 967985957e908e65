/** Failure-carrying values shared by every module: the Python exceptions the
    modelled code raises become `Failure(e)` values instead of control flow. */
module Wrappers {

  datatype Option<+T> = None | Some(value: T)

  /** The Python exception classes the modelled code raises or lets escape. */
  datatype Error =
    | ValueError
    | AttributeError
    | TypeError
    | IndexError
    | NotImplementedError
    | FileNotFoundError
    | FileExistsError

  datatype Result<+T> = Success(value: T) | Failure(error: Error)

  /** A call that returns nothing useful (Python `None`) or raises. */
  datatype Outcome = Pass | Fail(error: Error)
}
