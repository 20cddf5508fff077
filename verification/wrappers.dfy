/**
 The failure vocabulary shared by the whole model. The Python source signals
 failures by raising; each kind of exception it can raise on a modelled path is
 one constructor of `Error`, and an operation that can raise returns a `Result`.
 */
module Wrappers {

  /** An optional value; also models Python's `None` and the `0` placeholders of an empty slot. */
  datatype Option<+T> = None | Some(value: T)

  /** The exceptions the modelled code can raise. */
  datatype Error =
    | IndexError       // subscript out of range
    | KeyError         // missing dictionary key
    | ValueError       // numpy/random argument errors (negative size, empty argmax, ragged array)
    | TypeError        // subscripting the integer placeholder of an unwritten replay slot
    | RecursionError   // Python's recursion limit reached
    | ShapeMismatch    // a network input whose length differs from the configured state size

  datatype Result<+T> = Ok(value: T) | Err(error: Error) {
    predicate IsFailure() { Err? }

    function PropagateFailure<U>(): Result<U>
      requires Err?
    {
      Err(error)
    }

    function Extract(): T
      requires Ok?
    {
      value
    }
  }
}
