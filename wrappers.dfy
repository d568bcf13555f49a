/** The optional value used wherever the source reads a field that may be
    missing (`undefined`/`null`) or performs a step that may throw. */
module Wrappers {

  datatype Option<+T> = None | Some(value: T) {

    /** The value, or `default` when there is none. */
    function GetOr(default: T): T {
      match this
      case Some(v) => v
      case None => default
    }
  }

  /** JavaScript truthiness of an optional string: present and non-empty. */
  predicate IsTruthy(v: Option<string>) {
    v.Some? && v.value != []
  }
}
