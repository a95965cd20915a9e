/** Failure-compatible wrappers used by every layer of the model. */
module Wrappers {

  /** An optional value (Python's `Optional[T]`). */
  datatype Option<+T> = None | Some(value: T)

  /** Either a value or the failure that stopped the computation. */
  datatype Result<+T, +E> = Success(value: T) | Failure(error: E) {

    predicate IsFailure() {
      Failure?
    }

    function PropagateFailure<U>(): Result<U, E>
      requires Failure?
    {
      Failure(error)
    }

    function Extract(): T
      requires Success?
    {
      value
    }
  }
}
