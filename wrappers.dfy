/** The optional value used for board cells and for the winner report. */
module Wrappers {
  datatype Option<+T> = None | Some(value: T)
}
