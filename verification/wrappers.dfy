/** The optional-value datatype used for lookups that may miss and for optional record fields. */
module Wrappers {

  datatype Option<+T> = None | Some(value: T)
}
