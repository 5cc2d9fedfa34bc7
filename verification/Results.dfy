/** The two result types the model uses for absent values and for run-time faults. */
module Results {

  datatype Option<+T> = None | Some(value: T) {
    predicate IsFailure() {
      None?
    }

    function PropagateFailure<U>(): Option<U>
      requires None?
    {
      None
    }

    function Extract(): T
      requires Some?
    {
      value
    }

    function GetOr(default: T): T {
      if Some? then value else default
    }
  }

  /**
   The ways a simulation step can go wrong at run time.
   - TypeFault: a GVariant accessor, builder or assertion meets a value of a type it does not take.
   - DuplicateKey: dictSet() meets its key twice in one dictionary and its assertion fails.
   - SignedOverflow: a C expression on a signed type leaves the range of its type, which C leaves undefined.
   - BothFallbacks: the scan over the possible transitions ends with both of its fallbacks recorded.
   - BadVariable: the environment is asked for a variable it does not hold, or to declare one twice.
   */
  datatype Fault = TypeFault | DuplicateKey | SignedOverflow | BothFallbacks | BadVariable

  datatype Result<+T> = Ok(value: T) | Fail(fault: Fault) {
    predicate IsFailure() {
      Fail?
    }

    function PropagateFailure<U>(): Result<U>
      requires Fail?
    {
      Fail(fault)
    }

    function Extract(): T
      requires Ok?
    {
      value
    }
  }
}
