/** The optional value used where the game looks something up and may find nothing. */
module Wrappers {
  datatype Option<+T> = None | Some(value: T)
}
