/** Optional values and results of operations that may fail. */
module Wrappers {

  datatype Option<+T> = None | Some(value: T)

  /** The source's (value, error) pairs. */
  datatype Result<+T, +E> = Ok(value: T) | Err(error: E) {
    predicate IsFailure() {
      Err?
    }

    function PropagateFailure<U>(): Result<U, E>
      requires Err?
    {
      Err(error)
    }

    function Extract(): T
      requires Ok?
    {
      value
    }
  }
}
