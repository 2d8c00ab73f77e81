/** The optional value used wherever the source has `undefined` or a thrown error. */
module Wrappers {

  datatype Option<+T> = None | Some(value: T)

  /** A value or the message of the error that was thrown instead. */
  datatype Result<+T> = Ok(value: T) | Err(message: string)
}
