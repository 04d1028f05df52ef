/** The optional value used where the program tests a value for "not given". */
module Wrappers {

  datatype Option<+T> = None | Some(value: T)
}
