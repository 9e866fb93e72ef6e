/** Outcomes shared by every module: the Python exceptions the modelled code can raise,
    and the wrappers that carry either a value or one of those exceptions. */
module Results {

  /** The exceptions the modelled code raises. */
  datatype Error =
    | KeyError           // a state that is not a member of the discrete state set
    | IndexError         // a list index out of range
    | ValueError         // random.sample or random.randint asked for too small a range
    | ZeroDivisionError  // a zero temperature in the acceptance rule
    | TypeError          // a call that omits a required parameter

  /** A value, or the exception raised instead of producing it. */
  datatype Result<T> = Ok(value: T) | Err(error: Error)

  /** An optional argument (Python's `None` default). */
  datatype Option<T> = None | Some(value: T)

  /** The outcome of a call made only for its effect. */
  datatype Outcome = Pass | Fail(error: Error)

  /** An integer result used where a real number is expected (Python mixes `int` energies
      into float arithmetic without conversion). */
  function AsReal(r: Result<int>): (q: Result<real>)
    ensures q.Ok? <==> r.Ok?
    ensures r.Ok? ==> q.value == r.value as real
    ensures r.Err? ==> q.error == r.error
  {
    match r
    case Ok(v) => Ok(v as real)
    case Err(e) => Err(e)
  }
}
