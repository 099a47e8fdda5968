/** Failure-compatible wrappers used by every module of the model. */
module Results {

  datatype Option<+T> = None | Some(value: T)

  /** `PigResult<T>`: either a value or the failure that aborted the call. */
  datatype Result<+T, +E> = Ok(value: T) | Err(error: E) {
    predicate IsFailure() {
      Err?
    }

    function PropagateFailure<U>(): Result<U, E>
      requires Err?
    {
      Err(error)
    }

    function Extract(): T
      requires Ok?
    {
      value
    }
  }
}
