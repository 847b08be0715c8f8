/** Option and Result values used for the outcomes that the program reports by
    raising, printing an error or exiting. */
module Common {
  datatype Option<T> = None | Some(value: T)

  datatype Result<T, E> = Ok(value: T) | Err(error: E)
}
