/** Failure-compatible wrappers shared by every module: `Option`, and `Result`
    standing for Rust's `Result<T, E>` (so `ProgramResult` is `Result<(), ProgramError>`). */
module Wrappers {

  datatype Option<+T> = None | Some(value: T) {
    /** Rust's `ok_or`: turn a missing value into the given error. */
    function OkOr<E>(error: E): Result<T, E> {
      match this
      case Some(v) => Ok(v)
      case None => Err(error)
    }
  }

  datatype Result<+T, +E> = Ok(value: T) | Err(error: E) {
    predicate IsFailure() { Err? }

    function PropagateFailure<U>(): Result<U, E>
      requires Err?
    {
      Err(error)
    }

    function Extract(): T
      requires Ok?
    {
      value
    }

    /** The value discarded and the error kept: what a handler hands back to the
        runtime after computing its new state. */
    function Status(): Result<(), E> {
      match this
      case Ok(_) => Ok(())
      case Err(e) => Err(e)
    }

    /** Rust's `map_err`. */
    function MapErr<F>(wrap: E -> F): Result<T, F> {
      match this
      case Ok(v) => Ok(v)
      case Err(e) => Err(wrap(e))
    }
  }

  /** A check that fails with `error` unless `condition` holds; used as `var _ :- Need(...)`. */
  function Need<E>(condition: bool, error: E): Result<(), E> {
    if condition then Ok(()) else Err(error)
  }
}
