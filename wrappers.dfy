/** Option and Result, the two failure-carrying shapes the Rust code uses. */
module Wrappers {

  datatype Option<+T> = None | Some(value: T)

  /** `Result<T, String>` of the source: every error there is a message. */
  datatype Result<+T> = Ok(value: T) | Err(error: string)
}
