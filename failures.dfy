/** The exceptions the driver code raises, and the datatypes that carry them
    out of an operation instead of a Python `raise`. */
module Failures {

  /** ValueError: a range check or a byte outside 0..255 handed to `bytearray`;
      IndexError: a list or buffer index out of range;
      ZeroDivisionError: a floor division by zero. */
  datatype Error = ValueError | IndexError | ZeroDivisionError

  /** The end of an operation that returns nothing: it returned, or it raised. */
  datatype Outcome = Pass | Fail(error: Error)

  /** The end of an operation that returns a value: the value, or the exception. */
  datatype Result<T> = Ok(value: T) | Err(error: Error)

  /** An optional argument that may be Python's `None`. */
  datatype Option<T> = None | Some(value: T)
}
