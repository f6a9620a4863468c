/** Optional values: the model's reading of a TypeScript `T | undefined` or `T | null`. */
module Wrappers {

  datatype Option<+T> = None | Some(value: T) {

    /** The value when present, otherwise `default` (the source's `x || default` on a non-falsy `x`). */
    function GetOr(default: T): T {
      match this
      case Some(v) => v
      case None => default
    }
  }
}
