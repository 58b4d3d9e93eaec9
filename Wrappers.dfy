/** An optional value, for what the host may or may not supply. */
module Wrappers {

  datatype Option<+T> = None | Some(value: T)
}
