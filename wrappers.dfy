/** The optional value used where the source has `None`/`undefined`. */
module Wrappers {

  datatype Option<+T> = None | Some(value: T)
}
