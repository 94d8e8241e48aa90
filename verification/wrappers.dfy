/** Option, for values the JavaScript source may leave `undefined` or `null`. */
module Wrappers {
  datatype Option<+T> = None | Some(value: T)
}
