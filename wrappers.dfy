/** The optional value used where the PHP code has a value that may be null, false or unset. */
module Wrappers {

  datatype Option<+T> = None | Some(value: T)
}
