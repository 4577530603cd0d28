/** The optional value used for the source's `T | null` and `field?: T`. */
module Wrappers {
  datatype Option<+T> = None | Some(value: T)
}
