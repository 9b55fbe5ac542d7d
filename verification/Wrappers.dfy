/** The result types the models share: a value that may be missing, an operation
    that may fail, and a write that may land without its writer learning of it. */
module Wrappers {

  datatype Option<+T> = None | Some(value: T)

  datatype Result<+T, +E> = Success(value: T) | Failure(error: E)

  datatype WriteOutcome = Written | WrittenSilently | NotWritten
}
