/** The optional-value datatype shared by the modules of this model. */
module Wrappers {

  /** A value that may be absent (Python's `None`, or a missing attribute or key). */
  datatype Option<+T> = None | Some(value: T)
}
