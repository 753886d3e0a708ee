/** The optional value used for the parts of a price label and for a download that may not happen. */
module Wrappers {
  datatype Option<+T> = None | Some(value: T)
}
