/** The optional value shared by the other modules: a teleporter hit that
    may be absent, a decoded buffer that may be malformed, a cell value that
    may name no `CellType`. */
module Wrappers {
  datatype Option<T> = None | Some(value: T)
}
