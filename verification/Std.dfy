/** The two wrappers every module shares: an absent value, and an answer or a thrown error. */
module Std {
  datatype Option<+T> = None | Some(value: T)

  datatype Result<+T, +E> = Ok(value: T) | Err(error: E)
}
