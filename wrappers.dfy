/** Optional values and results, used for the `null`/`undefined` values and the
    thrown errors of the TypeScript source. */
module Wrappers {

  /** `None` stands for both `null` and `undefined`: every consumer in the
      modelled code treats the two alike (`??`, `!x`, `?.`). */
  datatype Option<+T> = None | Some(value: T) {
    function GetOr(default: T): T {
      match this
      case Some(v) => v
      case None => default
    }
  }

  /** A value or the error the source would throw. */
  datatype Result<+T, +E> = Ok(value: T) | Err(error: E)

  /** JavaScript's `!x` on a `string | null | undefined`: absent or empty. */
  predicate Blank(s: Option<string>) {
    s.None? || s.value == ""
  }
}
