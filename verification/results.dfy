/** Failure-compatible wrappers shared by the other modules. */
module Results {

  /** A value that may be absent (a failed search, a missing dictionary key). */
  datatype Option<+T> = None | Some(value: T)

  /** The outcome of an operation that can raise an error in the original program. */
  datatype Result<+T, +E> = Success(value: T) | Failure(error: E) {

    predicate IsFailure() {
      Failure?
    }

    function PropagateFailure<U>(): Result<U, E>
      requires Failure?
    {
      Failure(error)
    }

    function Extract(): T
      requires Success?
    {
      value
    }
  }
}
