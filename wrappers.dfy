/** Option and throw-or-return outcomes shared by the whole model. */
module Wrappers {

  /** A value that may be absent: JavaScript's `null` for a nullable reference. */
  datatype Option<+T> = None | Some(value: T) {
    function GetOr(default: T): T {
      match this
      case Some(v) => v
      case None => default
    }
  }

  /** The outcome of JavaScript code that either returns a value or throws. */
  datatype Result<+T> = Ok(value: T) | Throw(message: string) {
    predicate IsFailure() { Throw? }
    function PropagateFailure<U>(): Result<U>
      requires Throw?
    {
      Throw(message)
    }
    function Extract(): T
      requires Ok?
    {
      value
    }
  }
}
