/** The conventional optional value: `None` stands for a file that does not
    exist, or for a call that raised nothing. */
module Wrappers {
  datatype Option<+T> = None | Some(value: T)
}
