/** Failure-carrying values used across the model: an optional value (a
    JavaScript `undefined`-able field) and a success-or-error result (a
    constructor or call that may throw). */
module Wrappers {

  datatype Option<+T> = None | Some(value: T)

  datatype Result<+R, +E> = Success(value: R) | Failure(error: E)
}
