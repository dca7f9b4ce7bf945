/** Optional values: a JavaScript `null` (or "no action") becomes `None`. */
module Wrappers {
  datatype Option<+T> = None | Some(value: T)
}
