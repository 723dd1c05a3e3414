/** The usual optional value, standing for Python's `None` and "not found". */
module Wrappers {

  datatype Option<+T> = None | Some(value: T)
}
