/**
 * The optional value used for SQL NULL, JavaScript null/undefined results and "not found",
 * and the outcome of a step that either yields a value or fails with a message.
 */
module Options {
  datatype Option<T> = None | Some(value: T)

  datatype Result<T> = Ok(value: T) | Err(msg: string)
}
