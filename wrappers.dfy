/** The optional value used where the game answers "nothing" (Python's None). */
module Wrappers {
  datatype Option<+T> = None | Some(value: T)
}
