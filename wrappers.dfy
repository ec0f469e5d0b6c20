/** The optional value used wherever the original returns `None` for "not found". */
module Wrappers {

  datatype Option<+T> = None | Some(value: T)
}
