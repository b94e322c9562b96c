/** Result and option types shared by the whole model. */
module Wrappers {

  datatype Option<+T> = None | Some(value: T)

  /** An outcome of an operation that may raise. */
  datatype Result<+T, +E> = Success(value: T) | Failure(error: E) {
    predicate IsFailure() {
      Failure?
    }

    function PropagateFailure<U>(): Result<U, E>
      requires Failure?
    {
      Failure(error)
    }

    function Extract(): T
      requires Success?
    {
      value
    }
  }
}
