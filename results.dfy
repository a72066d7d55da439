/** The two failure-carrying wrappers used throughout the model: `Option` for
    Python's `None`-or-value and `Result` for a value-or-raised-exception. */
module Results {

  datatype Option<+T> = None | Some(value: T)

  datatype Result<+T, +E> = Success(value: T) | Failure(error: E)
}
