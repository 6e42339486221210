/** Outcomes of a calculator operation: a value, or the exception the
    Python code raises, or (for the logarithm search) no value at all. */
module Outcomes {

  /** The exception classes the calculator raises. */
  datatype Error = ZeroDivisionError | ValueError

  /** A value, or the exception that ended the call. */
  datatype Result<+T> = Success(value: T) | Failure(error: Error)

  /** Python's `None` beside a value. */
  datatype Option<+T> = None | Some(value: T)
}
