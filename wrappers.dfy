/** A value that may be absent (`null` in the components' state). */
module Wrappers {
  datatype Option<+T> = None | Some(value: T)
}
