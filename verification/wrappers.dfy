/** Optional values: `None` stands for a JavaScript value that is not a number (NaN) or absent. */
module Wrappers {
  datatype Option<+T> = None | Some(value: T)
}
