/** The optional value used for lookups that may fail and results that may be absent. */
module Wrappers {
  datatype Option<+T> = None | Some(value: T)
}
