/**
 Optional values and the two ways a JavaScript call can end: it returns a
 value, or it throws an `Error` carrying a message.
 */
module Outcomes {

  /** An optional argument: `None` stands for an omitted (undefined) argument. */
  datatype Option<+T> = None | Some(value: T) {

    /** The argument, or the parameter's default when it was omitted. */
    function GetOr(default: T): T {
      match this
      case Some(v) => v
      case None => default
    }
  }

  /** The completion of a call: a returned value or a thrown error message. */
  datatype Outcome<+T> = Returned(value: T) | Threw(message: string) {

    /** Applies `f` to a returned value; a thrown error passes through. */
    function MapValue<U>(f: T -> U): Outcome<U> {
      match this
      case Returned(v) => Returned(f(v))
      case Threw(m) => Threw(m)
    }
  }
}
