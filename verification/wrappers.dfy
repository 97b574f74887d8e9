/** Failure-compatible wrappers used throughout the model: an optional value and a
    success-or-failure result that works with Dafny's `:-` operator. */
module Wrappers {

  datatype Option<+T> = None | Some(value: T)

  /** Either a computed value or the failure that stopped the computation. */
  datatype Result<+T, +E> = Ok(value: T) | Fail(error: E) {

    predicate IsFailure() {
      Fail?
    }

    function PropagateFailure<U>(): Result<U, E>
      requires Fail?
    {
      Fail(error)
    }

    function Extract(): T
      requires Ok?
    {
      value
    }
  }
}
