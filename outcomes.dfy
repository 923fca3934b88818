/**
 * The ways a run of the barcode scripts can end early, and the
 * Option/Result wrappers used to return them.
 */
module Outcomes {

  /** A Python-level abnormal end: `sys.exit(status)` or an uncaught exception. */
  datatype PyError =
    | Exit(status: int)
    | NameError(name: string)
    | ZeroDivisionError
    | ValueError

  datatype Option<T> = None | Some(value: T)

  datatype Result<T> = Ok(value: T) | Err(error: PyError)
}
