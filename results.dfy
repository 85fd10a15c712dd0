/** The outcome of an operation that either produces a value or fails with a reason. */
module Results {

  /** `Err` stands for an exception raised by the source; its argument is which one. */
  datatype Result<+T, +E> = Ok(value: T) | Err(error: E)
}
