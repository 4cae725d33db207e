/** Failure-carrying results shared by every module of the model. */
module Wrappers {

  /** A value that may be absent: Go's nil pointer, a missing map entry, a regex without a match. */
  datatype Option<+T> = None | Some(value: T)

  /** The (value, error) pair Go functions return, and the exception a Python routine raises. */
  datatype Result<+T> = Ok(value: T) | Err(message: string) {
    predicate IsFailure() { Err? }
    function PropagateFailure<U>(): Result<U>
      requires Err?
    {
      Err(message)
    }
    function Extract(): T
      requires Ok?
    {
      value
    }
  }
}
