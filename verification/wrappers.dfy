/** The Some/None datatype used in place of JavaScript's `null`/`undefined`. */
module Wrappers {

  datatype Option<+T> = None | Some(value: T) {

    /** An absent value stops a `:-` chain */
    predicate IsFailure() {
      None?
    }

    /** Carries the absence on, at the type the enclosing chain returns */
    function PropagateFailure<U>(): Option<U>
      requires None?
    {
      None
    }

    /** The present value, which a `:-` chain continues with */
    function Extract(): T
      requires Some?
    {
      value
    }

    /** `v ?? default` */
    function GetOr(default: T): T {
      match this
      case Some(v) => v
      case None => default
    }
  }
}
