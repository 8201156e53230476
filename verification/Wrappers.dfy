/** A value that may be absent: Python's `None`, a missing key, or a raised `ValueError`. */
module Wrappers {
  datatype Option<+T> = None | Some(value: T)
}
