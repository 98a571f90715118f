/** Failure-carrying values shared by both pipelines.

    Every fatal exit of the original programs (a printed diagnostic followed by
    `sys.exit(1)` or `System.exit(1)`, or an uncaught exception) becomes a
    failure value returned up the call chain. */
module Results {

  /** A value that may be absent; `None` is a failure for the `:-` operator. */
  datatype Option<+T> = None | Some(value: T) {

    predicate IsFailure() {
      None?
    }

    function PropagateFailure<U>(): Option<U>
      requires None?
    {
      None
    }

    function Extract(): T
      requires Some?
    {
      value
    }
  }

  /** A value or an error description; `Err` is a failure for `:-`. */
  datatype Result<+T, +E> = Ok(value: T) | Err(error: E) {

    predicate IsFailure() {
      Err?
    }

    function PropagateFailure<U>(): Result<U, E>
      requires Err?
    {
      Err(error)
    }

    function Extract(): T
      requires Ok?
    {
      value
    }
  }
}
