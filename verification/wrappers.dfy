/**
 * Failure-carrying values shared by every other module: `Option` for a value
 * that may be missing, `Result` for a step that either yields a value or
 * stands for an exception carrying a message.
 */
module Wrappers {

  datatype Option<+T> = None | Some(value: T)

  datatype Result<+R, +E> = Success(value: R) | Failure(error: E)
}
