/** The optional value used where the source returns `nullptr` for "not found". */
module Wrappers {
  datatype Option<+T> = None | Some(value: T)
}
