/** The optional value that the element-tree lookups return in place of Python's `None`. */
module Wrappers {

  datatype Option<+T> = None | Some(value: T)
}
