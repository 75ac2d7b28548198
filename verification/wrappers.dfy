/** An optional value and a success-or-error result, shared by the model: `Option` stands for a
    JavaScript value that may be `undefined`, `Result` for a call that may throw. */
module Wrappers {

  datatype Option<+T> = None | Some(value: T)

  datatype Result<+T, +E> = Success(value: T) | Failure(error: E)
}
