/** Option, Result and Outcome: the shapes of Rust's `Option<T>`,
    `Result<T, String>` and `Result<(), String>` used across the model. */
module Wrappers {

  datatype Option<+T> = None | Some(value: T)

  datatype Result<+T> = Success(value: T) | Failure(error: string)

  /** Outcome of an operation that returns nothing on success. */
  datatype Outcome = Pass | Fail(error: string)
}
