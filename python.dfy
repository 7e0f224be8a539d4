/** Python's exceptions, as far as the modelled code raises them, and the
    result of an expression that may raise one. */
module Python {

  /** The exception classes the modelled Python code raises. */
  datatype PyError =
    | TypeError          // an operand type the operation does not support
    | ValueError         // raised explicitly by the library's own checks
    | IndexError         // a list subscript out of range
    | ZeroDivisionError  // `/` with a zero divisor

  /** Either the value a Python expression returns or the exception it raises. */
  datatype Result<+T> = Ok(value: T) | Err(error: PyError)
}
