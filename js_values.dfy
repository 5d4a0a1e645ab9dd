/** JavaScript values as the Optional container sees them, and the outcome
    of a JavaScript call: it either returns a value or throws an error. */
module JsValues {

  /** A runtime value whose declared type is `T`. JavaScript has two
      missing-value markers besides the ordinary values: `undefined` (never
      supplied) and `null` (explicitly nothing). */
  datatype Slot<T> = Undefined | Null | Val(v: T)

  /** An `Error` object built by a caller; only its kind and message are kept. */
  datatype Error = Error(name: string, message: string)

  /** How a call ends. `TypeErr` and `RefErr` are the `TypeError` and
      `ReferenceError` the container raises itself; `Thrown(e)` is an error
      object built by caller code. */
  datatype Completion<R> = Ok(result: R) | TypeErr | RefErr | Thrown(error: Error)
  {
    /** The same abrupt completion, for a call site expecting another type:
        an exception propagates unchanged through the container. */
    function Propagate<S>(): (c: Completion<S>)
      requires !Ok?
      ensures c.TypeErr? == TypeErr? && c.RefErr? == RefErr?
      ensures c.Thrown? == Thrown? && (Thrown? ==> c.error == error)
      ensures !c.Ok?
    {
      match this
      case TypeErr => TypeErr
      case RefErr => RefErr
      case Thrown(e) => Thrown(e)
    }

    /** Sequencing in JavaScript: run `next` on the returned value, or let the
        exception through without running `next`. */
    function AndThen<S>(next: R --> Completion<S>): (c: Completion<S>)
      requires Ok? ==> next.requires(result)
      ensures Ok? ==> c == next(result)
      ensures !Ok? ==> c == Propagate()
    {
      if Ok? then next(result) else Propagate()
    }
  }
}
