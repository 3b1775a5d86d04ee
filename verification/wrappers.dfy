/** The optional value the model uses for Python's `None` and for a raised error. */
module Wrappers {

  /** A value that may be absent: Python's `None` or a raised error. */
  datatype Option<+T> = None | Some(value: T)
}
