/** Optional values, shared by the three bank models. */
module Wrappers {

  /** A value that may be missing: a row `fetchone` did not find, a search
      that fell off the end of a table. */
  datatype Option<+T> = None | Some(value: T)
}
