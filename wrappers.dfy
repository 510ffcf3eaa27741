/** JavaScript's "value or undefined", as an explicit option. */
module Wrappers {

  datatype Option<+T> = None | Some(value: T)
}
