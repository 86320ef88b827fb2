/** The optional value used wherever the source has `T | null` or an optional field. */
module Wrappers {
  datatype Option<+T> = None | Some(value: T) {
    /** The value, or `default` when there is none (JavaScript's `x || default` on objects). */
    function GetOr(default: T): T {
      match this
      case Some(v) => v
      case None => default
    }
  }

  /**
   * A nullable string that passes a JavaScript truthiness test (`if (!x) return`): it is neither
   * `null` nor the empty string.
   */
  predicate Present(o: Option<string>) {
    o.Some? && o.value != ""
  }
}
