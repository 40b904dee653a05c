/** Failure-carrying datatypes shared by the model: an optional value and
    the outcome of an operation that either yields a value or an error. */
module Results {

  datatype Option<+T> = None | Some(value: T)

  datatype Result<+T, +E> = Ok(value: T) | Err(error: E)
}
