/** The optional value used wherever the scripts test for `None`. */
module Wrappers {

  datatype Option<+T> = None | Some(value: T)

}
