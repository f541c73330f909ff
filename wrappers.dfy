/** The optional value used for partial operations of the model. */
module Wrappers {

  datatype Option<+T> = None | Some(value: T)
}
