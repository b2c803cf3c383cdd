/** The optional value used where the handler works with `undefined`. */
module Wrappers {

  datatype Option<+T> = None | Some(value: T)
}
