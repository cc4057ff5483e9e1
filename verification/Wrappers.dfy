/** Failure-compatible results shared by the models of partial operations. */
module Wrappers {

  /** A value that may be absent: JavaScript's `undefined`, or a computation that never returns. */
  datatype Option<+T> = None | Some(value: T) {
    predicate IsFailure() {
      None?
    }

    function PropagateFailure<U>(): Option<U>
      requires None?
    {
      None
    }

    function Extract(): T
      requires Some?
    {
      value
    }
  }

  /** A value, or the error a source function throws. */
  datatype Result<+T, +E> = Ok(value: T) | Err(error: E)
}
