/** The Option type the modules of this project share. */
module Wrappers {
  datatype Option<+T> = None | Some(value: T)
}
