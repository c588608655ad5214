/** Failure-compatible results shared by the models. */
module Outcome {

  datatype Option<+T> = None | Some(value: T)

  /** `Rejected`: the source returns an error.  `OutOfBounds`: the source indexes past a slice and panics. */
  datatype Fault = Rejected | OutOfBounds

  datatype Result<+T> = Ok(value: T) | Err(fault: Fault) {
    predicate IsFailure() { Err? }

    function PropagateFailure<U>(): Result<U>
      requires Err?
    {
      Err(fault)
    }

    function Extract(): T
      requires Ok?
    {
      value
    }
  }
}
