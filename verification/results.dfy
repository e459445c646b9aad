/** Failure-carrying wrappers used in place of Python's `None` and exceptions. */
module Results {

  /** An optional value: `None` stands for an absent value. */
  datatype Option<+T> = None | Some(value: T)

  /** Either the value an operation returns or the exception it raises. */
  datatype Result<+R, +E> = Success(value: R) | Failure(error: E)
}
