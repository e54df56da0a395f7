/** Failure-compatible result types and the error kinds the model raises.

    Each `Error` stands for a Python exception the code lets propagate:
    a dictionary lookup on a missing key (`KeyError`), an operation applied
    to the wrong kind of value (`TypeError`, e.g. `sum` of an int), a
    `ValueError` (bad action number, `max()` of an empty list, malformed
    hex range), a failed `assert` and the novelty index running out of room. */
module Wrappers {

  datatype Option<+T> = None | Some(value: T) {
    function GetOr(default: T): T {
      match this
      case Some(v) => v
      case None => default
    }
  }

  datatype Error =
    | KeyError(key: string)
    | TypeError(key: string)
    | ValueError(reason: string)
    | AssertionError(reason: string)
    | CapacityError(limit: nat)

  datatype Result<+T> = Success(value: T) | Failure(error: Error) {
    predicate IsFailure() {
      Failure?
    }

    function PropagateFailure<U>(): Result<U>
      requires Failure?
    {
      Failure(error)
    }

    function Extract(): T
      requires Success?
    {
      value
    }
  }

  datatype Outcome = Pass | Fail(error: Error) {
    predicate IsFailure() {
      Fail?
    }

    function PropagateFailure(): Outcome
      requires Fail?
    {
      this
    }
  }
}
