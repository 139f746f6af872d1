/** Wrappers shared by the model: an optional value (a JavaScript
    `undefined`/`null` slot or a present value) and a result that is either a value or
    the error a call would throw. */
module Results {

  datatype Option<+T> = None | Some(value: T)

  datatype Result<+T, +E> = Success(value: T) | Failure(error: E)
}
