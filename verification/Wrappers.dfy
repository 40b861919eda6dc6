/** What several modules need: an optional value, and the program's strings of bytes. */
module Wrappers {

  datatype Option<+T> = None | Some(value: T)

  /** Length and slices count bytes, not characters. */
  type Bytes = seq<bv8>
}
