/** Optional values, used where the source has "nothing there" (an unmapped key, a missing file). */
module Wrappers {
  datatype Option<+T> = None | Some(value: T)
}
