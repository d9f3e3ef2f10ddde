/** A call that may raise: `Ok` carries what it returns, `Err` the exception. */
module Results {
  datatype Result<+T, +E> = Ok(value: T) | Err(error: E)

  datatype Option<+T> = None | Some(value: T)
}
