/** Failure-compatible wrappers and a sequence fact shared by every module of the model. */
module Wrappers {

  datatype Option<+T> = None | Some(value: T)

  /** The value of a computation that either succeeds or raises. */
  datatype Result<+T, +E> = Success(value: T) | Failure(error: E) {
    predicate IsFailure() { Failure? }

    function PropagateFailure<U>(): Result<U, E>
      requires Failure?
    {
      Failure(error)
    }

    function Extract(): T
      requires Success?
    {
      value
    }

    /** The outcome of a method that mirrors this computation for its effect. */
    function ToOutcome(): Outcome<E> {
      if Success? then Pass else Fail(error)
    }
  }

  /** The outcome of a method run only for its effect. */
  datatype Outcome<+E> = Pass | Fail(error: E)

  /** A non-empty sequence is its head followed by its tail. */
  lemma ConsSplit<T>(s: seq<T>)
    requires s != []
    ensures [s[0]] + s[1..] == s
  {
  }
}
