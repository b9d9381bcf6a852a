/** The optional value that stands for a C pointer that may be NULL. */
module Opt {
  datatype Option<+T> = None | Some(value: T) {
    function GetOr(default: T): T {
      match this
      case Some(v) => v
      case None => default
    }
  }
}
