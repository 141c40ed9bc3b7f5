/** Values that may be absent: nullable columns, pointers and failed look-ups. */
module Wrappers {
  datatype Option<+T> = None | Some(value: T)
}
