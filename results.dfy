/** Failure-compatible wrappers standing in for Java's Optional and for ParseException. */
module Results {

  /** Java's Optional: a value that may be absent. */
  datatype Option<+T> = None | Some(value: T)

  /** A parse outcome: the parsed value, or the error a ParseException would have carried. */
  datatype Result<+T, +E> = Ok(value: T) | Err(error: E) {

    predicate IsFailure() {
      Err?
    }

    function PropagateFailure<U>(): Result<U, E>
      requires Err?
    {
      Err(error)
    }

    function Extract(): T
      requires Ok?
    {
      value
    }
  }
}
