/** The optional value returned by a dictionary lookup (`dict.get`). */
module Wrappers {
  datatype Option<+T> = None | Some(value: T)
}
