/** The optional value used for an absent `friendId` and for a lookup that finds nothing. */
module Wrappers {

  datatype Option<+T> = None | Some(value: T)

}
