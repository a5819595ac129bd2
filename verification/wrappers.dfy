/** The optional-value wrapper used for JavaScript's `undefined`. */
module Wrappers {

  /** `None` stands for an absent value (`undefined` in the app). */
  datatype Option<+T> = None | Some(value: T) {

    /** Returns the wrapped value, or `default` when it is absent. */
    function GetOr(default: T): T {
      match this
      case Some(v) => v
      case None => default
    }
  }
}
