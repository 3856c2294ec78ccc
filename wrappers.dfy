/** Option and Result values standing for Python's `None` and DIRAC's
    `S_OK(value)` / `S_ERROR(message)` return convention. */
module Wrappers {

  datatype Option<+T> = None | Some(value: T) {
    function GetOr(default: T): T {
      match this
      case Some(v) => v
      case None => default
    }
  }

  /** `Success(v)` is `S_OK(v)`; `Failure(m)` is `S_ERROR(m)`. */
  datatype Result<+T> = Success(value: T) | Failure(error: string)

  /** A result that carries no value: `S_OK()` or `S_ERROR(m)`. */
  datatype Status = Ok | Error(message: string)
}
