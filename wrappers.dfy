/** Option, the model's stand-in for a C pointer that may be NULL. */
module Wrappers {
  datatype Option<T> = None | Some(value: T)
  {
    predicate IsNone() { this.None? }

    function GetOr(default: T): T
    {
      match this
      case None => default
      case Some(v) => v
    }
  }
}
