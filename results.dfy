/** Optional values and handler results shared by every module of the model. */
module Results {

  /** A value that may be absent: Python's `Optional[...]` / `None`. */
  datatype Option<+T> = None | Some(value: T)

  /** Either a successful value or the error a handler raises. */
  datatype Result<+T, +E> = Ok(value: T) | Err(error: E)
}
