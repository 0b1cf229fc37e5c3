/** The optional value used where the CLI works with `undefined`. */
module Wrappers {

  datatype Option<+T> = None | Some(value: T)
}
