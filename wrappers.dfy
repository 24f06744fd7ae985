/** An optional argument of the game's code (`None` or a value). */
module Wrappers {
  datatype Option<+T> = None | Some(value: T)
}
