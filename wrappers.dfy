/** The optional value used wherever the Go code may hold nil: an absent
    struct, a missing map entry or a nil error. */
module Wrappers {

  datatype Option<+T> = None | Some(value: T)
  {
    function GetOr(default: T): T
    {
      match this
      case Some(v) => v
      case None => default
    }
  }
}
