/** Failure-compatible wrappers for the dashboard computations.

    The Python code signals its two error conditions by raising: an `IndexError`
    when a target row is missing (`.values[0]` on an empty selection) and a
    `KeyError` when a column the computation reads is absent. Each dashboard tab
    catches the exception and shows an error box; here the error is a value.
 */
module Outcome {

  datatype Option<+T> = None | Some(value: T)

  /** Why a computation raised. */
  datatype Failure =
    | MissingTarget(operation: string)   // no row of the targets table for this operation
    | MissingColumn(column: string)      // the ticket table lacks a column that is read

  datatype Result<+T> = Ok(value: T) | Err(error: Failure) {

    predicate IsFailure() {
      Err?
    }

    function PropagateFailure<U>(): Result<U>
      requires Err?
    {
      Err(error)
    }

    function Extract(): T
      requires Ok?
    {
      value
    }
  }
}
