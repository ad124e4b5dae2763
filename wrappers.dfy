/** Optional values: `None` stands for JavaScript's `undefined` or `null` where the source returns one. */
module Wrappers {
  datatype Option<+T> = None | Some(value: T)
}
