/** Failure-compatible wrappers shared by the mapping generators.

    The Go code reports two kinds of trouble while it builds a mapping:
    a path collision from the JSON container library (an ordinary `error`
    value, or `log.Fatal` in the standalone variant), and the runtime panic
    raised when an interface-typed field's zero value (a nil interface) is
    asked for its reflected kind. Both end the walk, so both are `Failure`s.
 */
module Results {

  /** Why a walk stopped. */
  datatype Failure =
    | PathCollision   // the container library met a non-object while following a path
    | NilInterface    // reflect.TypeOf(nil).Kind() on an interface field's zero value

  datatype Option<+T> = None | Some(value: T)

  datatype Result<+T> = Ok(value: T) | Err(error: Failure) {

    predicate IsFailure() {
      Err?
    }

    function PropagateFailure<U>(): Result<U>
      requires Err?
    {
      Err(error)
    }

    function Extract(): T
      requires Ok?
    {
      value
    }
  }
}
