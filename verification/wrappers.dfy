/** Optional values: `None` stands for JavaScript's `null` / `undefined`. */
module Wrappers {

  datatype Option<+T> = None | Some(value: T) {

    /** The carried value, or `default` when there is none. */
    function GetOr(default: T): T {
      match this
      case Some(v) => v
      case None => default
    }
  }

  /**
   * JavaScript truthiness of a nullable string: neither `null`/`undefined`
   * (`None`) nor the empty string.
   */
  predicate Present(o: Option<string>) {
    o.Some? && o.value != []
  }

  /** `s || null`: a falsy string is stored as `null`. */
  function OrNull(o: Option<string>): Option<string> {
    if Present(o) then o else None
  }
}
