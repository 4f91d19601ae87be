/** The exceptions the decoder's Python code can raise, and a result type that carries them. */
module Outcomes {

  /** IndexError: a list index out of range; KeyError: a missing dictionary key;
      ZeroDivisionError: a true division by zero. */
  datatype Error = IndexError | KeyError | ZeroDivisionError

  /** The value a Python function returns, or the exception it raises instead. */
  datatype Result<+T> = Ok(value: T) | Err(error: Error)
}
