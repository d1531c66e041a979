/** Outcomes that may be an error, and values that may be absent. */
module Results {
  datatype Result<T> = Ok(value: T) | Err(error: string)

  datatype Option<T> = None | Some(value: T)
}
