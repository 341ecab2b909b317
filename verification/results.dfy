/** Failure-carrying return values shared by every module of the model. */
module Results {

  /** A value that may be absent: Python's `None` or a present value. */
  datatype Option<+T> = None | Some(value: T)

  /** Either the value an operation computes or the error it raises instead. */
  datatype Result<+T, +E> = Ok(value: T) | Err(error: E)
}
