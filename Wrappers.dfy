/** The optional result of a lookup: Java's `null` for a missing key becomes `None`. */
module Wrappers {

  datatype Option<+T> = None | Some(value: T)
}
