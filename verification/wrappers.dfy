/** How the model says "nothing found" and "this call throws": the engine
    returns null or raises an exception, the model returns a value. */
module Wrappers {

  /** `None` stands for a null reference, `Some(v)` for a reference to `v`. */
  datatype Option<+T> = None | Some(value: T)

  /** A value, or the exception the engine would have thrown instead.
      The three members below let `:-` pass an error straight through. */
  datatype Result<+R, +E> = Success(value: R) | Failure(error: E) {

    predicate IsFailure() {
      Failure?
    }

    function PropagateFailure<U>(): Result<U, E>
      requires Failure?
    {
      Failure(error)
    }

    function Extract(): R
      requires Success?
    {
      value
    }
  }
}
