/** The optional value used for the grammar's `optional(...)` fields and for recognisers that may reject. */
module Wrappers {

  datatype Option<+T> = None | Some(value: T)
}
