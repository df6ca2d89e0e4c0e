/** The Option type used for operations that can raise in the source program. */
module Wrappers {

  /** `None` stands for a Python exception; `Some(v)` for a normal return of `v`. */
  datatype Option<+T> = None | Some(value: T) {

    /** The value, or `default` when absent (Python's `dict.get(key, default)`). */
    function GetOr(default: T): T {
      match this
      case Some(v) => v
      case None => default
    }
  }
}
