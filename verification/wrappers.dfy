/** Failure-compatible result types shared by every module of the model:
    `Option` stands for a Java reference that may be null (or a C value that
    may be absent), `Result` for an operation that may throw or be rejected. */
module Wrappers {

  datatype Option<+T> = None | Some(value: T)

  datatype Result<+T, +E> = Success(value: T) | Failure(error: E)
}
