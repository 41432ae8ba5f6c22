/** Failure-carrying wrappers shared by the other modules. */
module Wrappers {

  datatype Option<+T> = None | Some(value: T)

  /** A value, or the error message that `generate_quiz_content` returns beside `None`. */
  datatype Result<+R, +E> = Ok(value: R) | Err(error: E)
}
