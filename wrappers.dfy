/** The optional value used wherever the dashboard code has `null` or `undefined`. */
module Wrappers {
  datatype Option<+T> = None | Some(value: T)
}
