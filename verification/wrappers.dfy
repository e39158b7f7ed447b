/** The optional value shared by every module of the model. */
module Wrappers {

  /** An optional value: JavaScript `undefined`/`null` or Python `None` when `None`. */
  datatype Option<+T> = None | Some(value: T) {

    /** Returns the value or the given default when absent. */
    function GetOr(default: T): T {
      match this
      case Some(v) => v
      case None => default
    }
  }
}
