/// Failure-carrying result types shared by the transport and the sensor driver.
module Wrappers {

  /// An optional value.
  datatype Option<+T> = None | Some(value: T)

  /// The outcome of an operation that yields a value or an error (Rust's `Result<T, E>`).
  datatype Result<+T, +E> = Ok(value: T) | Err(error: E)

  /// The outcome of an operation that yields no value (Rust's `Result<(), E>`).
  datatype Outcome<+E> = Pass | Fail(error: E)
}
