/** The optional value used for JavaScript's `undefined`: a request field that
    was not sent, a document field that is not stored. */
module Wrappers {

  datatype Option<+T> = None | Some(value: T) {

    /** The value, or `default` when there is none. */
    function GetOr(default: T): T {
      match this
      case Some(v) => v
      case None => default
    }
  }
}
