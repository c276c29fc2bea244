/** Small value wrappers shared by the other modules. */
module Wrappers {

  /** An optional value: Go's nil-able interfaces, errors and absent keys. */
  datatype Option<+T> = None | Some(value: T) {

    /** The wrapped value, or `default` when there is none. */
    function GetOr(default: T): T {
      match this
      case Some(v) => v
      case None => default
    }
  }
}
