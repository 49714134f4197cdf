/** The optional value used wherever the program returns an `Option`. */
module Wrappers {

  datatype Option<+T> = None | Some(value: T)

}
