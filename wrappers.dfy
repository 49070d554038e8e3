/** Optional values and results with an error, as the handlers return them. */
module Wrappers {

  /** A value that may be absent: a missing document, an omitted field. */
  datatype Option<+T> = None | Some(value: T)

  /** The outcome of a request handler: a response value or the HTTP error it raises. */
  datatype Result<+T, +E> = Ok(value: T) | Err(error: E)
}
