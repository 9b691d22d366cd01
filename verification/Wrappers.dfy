/** A value that may be missing, such as an absent file or an unmatched token. */
module Wrappers {
  datatype Option<+T> = None | Some(value: T)
}
