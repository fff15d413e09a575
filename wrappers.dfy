/** The Option type used for attribute lookups (`getAttribute` returns null when absent). */
module Wrappers {
  datatype Option<+T> = None | Some(value: T)
}
