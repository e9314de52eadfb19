/** Failure-compatible result types shared by the scanner and the parser. */
module Wrappers {

  datatype Option<+T> = None | Some(value: T)

  /** Either a value or the first fault; usable with `:-`. */
  datatype Result<+R, +E> = Ok(value: R) | Err(error: E) {
    predicate IsFailure() {
      Err?
    }

    function PropagateFailure<U>(): Result<U, E>
      requires Err?
    {
      Err(error)
    }

    function Extract(): R
      requires Ok?
    {
      value
    }
  }

  /** Success without a value, or a fault. */
  datatype Outcome<+E> = Pass | Fail(error: E)
}
