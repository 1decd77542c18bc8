/** The optional value used where the timer reads something that may fail to parse. */
module Wrappers {

  datatype Option<+T> = None | Some(value: T)

}
