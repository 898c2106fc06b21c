/** Small helper datatypes shared by the modules of this model. */
module Wrappers {

  /** A value that may be absent: JavaScript's `null` for a handle or a DOM lookup. */
  datatype Option<+T> = None | Some(value: T)
}
