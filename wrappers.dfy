/** The Some/None wrapper used for partial conversions. */
module Wrappers {

  datatype Option<+T> = None | Some(value: T)
}
