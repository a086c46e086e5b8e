/** Optional values, standing in for JavaScript's `undefined`-or-value results. */
module Wrappers {

  /** A value that may be absent: None plays the part of `undefined`. */
  datatype Option<+T> = None | Some(value: T)
}
