/** Failure-carrying values: `Option` stands for Python's `None`-or-value, and
    `Result` for a value-or-raised-exception. */
module Results {

  datatype Option<+T> = None | Some(value: T)

  datatype Result<+R, +E> = Success(value: R) | Failure(error: E)
}
