/** The source's `Result` and `Option` values. */
module Outcomes {

  datatype Result<+T, +E> = Ok(value: T) | Err(error: E) {
    predicate IsFailure() {
      Err?
    }

    function PropagateFailure<U>(): Result<U, E>
      requires Err?
    {
      Err(error)
    }

    function Extract(): T
      requires Ok?
    {
      value
    }
  }

  /** The kernel's error numbers this model uses. */
  datatype Errno = EINVAL | ENOENT | ESRCH | ENOSPC

  datatype Option<+T> = None | Some(value: T)
}
