/** The two small result types shared by every component. */
module Wrappers {

  datatype Option<+T> = None | Some(value: T)

  /** A JavaScript call that either throws or yields a value; usable with `:-`. */
  datatype Result<+T, +E> = Success(value: T) | Failure(error: E) {
    predicate IsFailure() {
      Failure?
    }

    function PropagateFailure<U>(): Result<U, E>
      requires Failure?
    {
      Failure(error)
    }

    function Extract(): T
      requires Success?
    {
      value
    }
  }
}
