/** The optional value used for records the store may not hold. */
module Wrappers {
  datatype Option<+T> = None | Some(value: T)
}
