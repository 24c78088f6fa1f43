/** Answers of operations that may raise one of the host language's errors. */
module Results {
  datatype Error =
    | AssertionError
    | AttributeError
    | IndexError
    | RuntimeError
    | TypeError
    | UnboundLocalError
    | ValueError
    | ZeroDivisionError

  datatype Result<+T> = Ok(value: T) | Err(error: Error)
}
