/** A value that may be absent: Python's `None` versus a present object. */
module Wrappers {

  datatype Option<+T> = None | Some(value: T)
}
