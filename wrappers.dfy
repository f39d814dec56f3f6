/** The optional value used for the source's nullable results and columns. */
module Wrappers {

  datatype Option<+T> = None | Some(value: T) {

    /** The value held, or the default when there is none. */
    function GetOr(default: T): T
    {
      match this
      case Some(v) => v
      case None => default
    }
  }
}
