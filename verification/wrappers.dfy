/** An optional value: a setting that may be left unset. */
module Wrappers {
  datatype Option<+T> = None | Some(value: T)
}
