/** The outcome of a Go call that may return an error or panic. */
module Results {

  /** Error is a returned error; Panic is a run-time panic (nil dereference, index or slice out of range). */
  datatype Failure = Error | Panic

  datatype Result<+T> = Ok(value: T) | Fail(failure: Failure)
  {
    predicate IsFailure() { Fail? }

    function PropagateFailure<U>(): Result<U>
      requires Fail?
    {
      Fail(failure)
    }

    function Extract(): T
      requires Ok?
    {
      value
    }
  }

  datatype Option<+T> = None | Some(value: T)
}
