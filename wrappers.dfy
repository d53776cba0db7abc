/** The optional value used wherever the source returns null or a query can fail. */
module Wrappers {
  datatype Option<+T> = None | Some(value: T)
}
