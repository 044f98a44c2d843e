/** The optional-value wrapper shared by the other modules. */
module Wrappers {

  /** A value that may be absent: an unset command-line flag, a missing
      dictionary key, or a search that raised instead of returning. */
  datatype Option<+T> = None | Some(value: T)
}
