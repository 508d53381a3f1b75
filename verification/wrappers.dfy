/** Option, Result and Outcome: the shapes the contract's storage lookups and
 *  panicking calls take once their failure paths are made explicit. */
module Wrappers {

  datatype Option<+T> = None | Some(value: T)

  /** The result of a contract call that either returns a value or aborts with an error. */
  datatype Result<+T, +E> = Success(value: T) | Failure(error: E)
  {
    predicate IsFailure() { Failure? }

    function PropagateFailure<U>(): Result<U, E>
      requires Failure?
    {
      Failure(error)
    }

    function Extract(): T
      requires Success?
    {
      value
    }
  }

  /** The result of a contract call that returns nothing or aborts with an error. */
  datatype Outcome<+E> = Pass | Fail(error: E)
  {
    predicate IsFailure() { Fail? }

    function PropagateFailure(): Outcome<E>
      requires Fail?
    {
      this
    }
  }
}
