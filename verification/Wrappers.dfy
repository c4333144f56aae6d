/** Python's optional values, and results that may be an exception. */
module Wrappers {
  datatype Option<+T> = None | Some(value: T)
}
