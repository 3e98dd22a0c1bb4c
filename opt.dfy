/** The conventional optional value, used for Python's `None` and for absent map keys. */
module Opt {
  datatype Option<+T> = None | Some(value: T)
}
