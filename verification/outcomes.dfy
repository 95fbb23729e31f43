/** Failure-carrying return values shared by every module of the model:
    `Option` stands for Python's `None`-or-value and Rust's `Option`,
    `Result` for Rust's `Result` and for a Python call that may raise. */
module Outcomes {

  datatype Option<+T> = None | Some(value: T)

  datatype Result<+T, +E> = Ok(value: T) | Err(error: E)
}
