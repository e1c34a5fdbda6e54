/** The Option type shared by the other modules. */
module Wrappers {

  /** A value that may be missing: Python's `None` or an object. */
  datatype Option<+T> = None | Some(value: T)
}
