/** The optional value that stands for TypeScript's `T | undefined`, and the
    three outcomes of an adapter call. */
module Wrappers {

  datatype Option<+T> = None | Some(value: T) {

    /** `this ?? default` */
    function GetOr(default: T): T {
      match this
      case Some(v) => v
      case None => default
    }
  }

  /** What a message adapter's `transform` does with one action: returns a
      frame, returns `undefined`, or throws. */
  datatype Outcome<+T> = Emit(value: T) | Silent | Throws
}
