/** Option, Result and Outcome: the error-returning shapes the repository
    uses (`Option`, `Result<T, E>` and `Result<(), E>` in the Rust code). */
module Wrappers {

  datatype Option<+T> = None | Some(value: T)

  datatype Result<+T, +E> = Ok(value: T) | Err(error: E)

  /** A `Result<(), E>`: success carries no value. */
  datatype Outcome<+E> = Pass | Fail(error: E)

  /** The three results of Rust's `cmp`. */
  datatype Ordering = Less | Equal | Greater
}
