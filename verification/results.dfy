/** Python's None-or-value and the exceptions of the modelled code, as
    failure-compatible datatypes (usable with `:-`). */
module Results {

  /** The exceptions of the modelled code: `int()` on a non-number raises
      ValueError, indexing past the end of a list raises IndexError, and a
      `timedelta` beyond its range raises OverflowError. */
  datatype PyError = ValueError | IndexError | OverflowError

  /** A value, or the exception raised while computing it. */
  datatype Result<+T> = Ok(value: T) | Err(error: PyError) {

    predicate IsFailure() {
      Err?
    }

    function PropagateFailure<U>(): Result<U>
      requires Err?
    {
      Err(error)
    }

    function Extract(): T
      requires Ok?
    {
      value
    }
  }

  /** Python's `None` or a value. */
  datatype Option<+T> = None | Some(value: T)
}
