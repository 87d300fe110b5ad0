/** Optional values: the model's stand-in for JavaScript's `null` / `undefined`. */
module Wrappers {

  /** `None` is an absent value (`null` or `undefined`); `Some(v)` a present one. */
  datatype Option<+T> = None | Some(value: T)
}
