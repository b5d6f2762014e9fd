/** The optional value and the success-or-error result the model returns in
    place of `null` and of a thrown `Error`. */
module Wrappers {

  datatype Option<T> = None | Some(value: T)

  datatype Result<T, E> = Success(value: T) | Failure(error: E)
}
