/** The two failure-carrying datatypes the model uses in place of Python's
    `None` and raised exceptions. */
module Results {

  datatype Option<+T> = None | Some(value: T)

  datatype Result<+T, +E> = Ok(value: T) | Err(error: E)
}
