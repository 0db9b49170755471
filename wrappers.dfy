/** The optional value used where the game code returns `None`. */
module Wrappers {

  datatype Option<+T> = None | Some(value: T)
}
