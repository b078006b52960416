/** Optional values: JavaScript's `null` (or `undefined`) beside a present value. */
module Wrappers {
  datatype Option<+T> = None | Some(value: T)
}
