/** The failure-compatible wrappers the boundary model uses in place of null and error codes. */
module Wrappers {

  /** `None` stands for a null pointer or an absent value. */
  datatype Option<+T> = None | Some(value: T)

  /** An internal outcome whose error kinds the boundary later collapses into one null result. */
  datatype Result<+R, +E> = Ok(value: R) | Err(error: E)
}
