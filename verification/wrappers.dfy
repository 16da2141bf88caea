/** The optional value used where Swift's `as(...)` casts and `first?`
    may produce nothing, and the outcome of a step that may stop with an
    error message. */
module Wrappers {

  datatype Option<+T> = None | Some(value: T)

  datatype Result<+T> = Success(value: T) | Failure(error: string)
}
