/** Failure-carrying datatypes shared by every module of the tracker model.
  - Option<T>: a value that may be absent (Rust's `Option`).
  - Result<T>: a value or an error message (Rust's `Result<T, Box<dyn Error>>`).
  - Outcome: success or an error message, with no value (Rust's `Result<(), _>`).
 */
module Wrappers {

  datatype Option<+T> = None | Some(value: T)

  datatype Result<+T> = Ok(value: T) | Err(error: string)

  datatype Outcome = Pass | Fail(error: string)
}
