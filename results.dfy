/** Failure-carrying values used across the model: a Python call that raises
    becomes an `Err`, one that returns becomes an `Ok`. */
module Results {

  datatype Option<+T> = None | Some(value: T)

  datatype Result<+T, +E> = Ok(value: T) | Err(error: E)
}
