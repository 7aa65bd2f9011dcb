/** Failure-carrying wrappers shared by every module of the model.
    A Python exception raised by the modelled code becomes an `Err` / `Fail`
    carrying a module-specific error value. */
module Results {

  datatype Option<+T> = None | Some(value: T)

  datatype Result<+T, +E> = Ok(value: T) | Err(error: E) {

    predicate IsFailure() {
      Err?
    }

    function PropagateFailure<U>(): Result<U, E>
      requires Err?
    {
      Err(error)
    }

    function Extract(): T
      requires Ok?
    {
      value
    }
  }

  /** A check that either passes or fails with an error (a Python validator). */
  datatype Outcome<+E> = Pass | Fail(error: E)
}
