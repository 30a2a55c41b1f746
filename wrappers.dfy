/**
 * Failure-carrying values shared by every module of the model.
 * Python exceptions raised by the source become `Err` values that name the exception class.
 */
module Wrappers {

  datatype Option<T> = None | Some(value: T)

  /** The exception classes the modelled code raises. */
  datatype Error =
    | EnstoolsError(message: string)
    | AssertionError(message: string)
    | TypeError
    | IndexError
    | KeyError(key: string)
    | ValueError
    | NotImplementedError
    | ZeroDivisionError

  datatype Result<T> = Ok(value: T) | Err(error: Error) {
    predicate IsFailure() { Err? }

    function PropagateFailure<U>(): Result<U>
      requires Err?
    {
      Err(error)
    }

    function Extract(): T
      requires Ok?
    {
      value
    }
  }

  /** A check that either passes or fails with an exception. */
  datatype Outcome = Pass | Fail(error: Error)
}
