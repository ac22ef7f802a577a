/** The optional result of a search that may find nothing. */
module Wrappers {

  datatype Option<+T> = None | Some(value: T)

}
