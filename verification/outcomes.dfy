/** Failure-compatible wrappers for the exceptions the Python code raises.
    Every Python `raise` (and every error the standard library or numpy raises
    on an input the code does not guard) becomes an `Err` carrying the
    exception class and, where the code writes one, its message. */
module Outcomes {

  /** The Python exception classes reachable from the modelled code. */
  datatype Error =
    | ValueError(message: string)
    | KeyError(key: string)
    | AttributeError(name: string)
    | TypeError(message: string)
    | OverflowError(message: string)
    | ZeroDivisionError
    | ImportError(message: string)

  datatype Option<+T> = None | Some(value: T) {

    predicate IsFailure() {
      None?
    }

    function PropagateFailure<U>(): Option<U>
      requires None?
    {
      None
    }

    function Extract(): T
      requires Some?
    {
      value
    }
  }

  datatype Result<+T> = Ok(value: T) | Err(error: Error) {

    predicate IsFailure() {
      Err?
    }

    function PropagateFailure<U>(): Result<U>
      requires Err?
    {
      Err(error)
    }

    function Extract(): T
      requires Ok?
    {
      value
    }
  }
}
