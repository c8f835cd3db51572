/** The optional value returned where the C code returns NULL. */
module Wrappers {
  datatype Option<+T> = None | Some(value: T)
}
