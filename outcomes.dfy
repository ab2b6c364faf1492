/** The exceptions the engine's operations can raise, and a result type
    that carries either a value or one of them. */
module Outcomes {

  /** DomainError: the math library's "math domain error" (log of a value <= 0).
      ZeroDivisionError: zero raised to a negative power, or a division by zero.
      TypeError: an operator with no implementation for its operand types. */
  datatype Error = DomainError | ZeroDivisionError | TypeError

  datatype Result<T> = Ok(value: T) | Err(error: Error)
}
