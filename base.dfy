/** The two wrappers the model uses in place of Rust's `Option` and of a
    `Result` or a panic: a failed operation carries a diagnostic message. */
module Base {

  datatype Option<+T> = None | Some(value: T)

  datatype Result<+T> = Success(value: T) | Failure(error: string)
}
