/** The optional-value datatype shared by the modules of this project. */
module Wrappers {

  /** A value that may be absent: in a query's id list, `None` is a hole. */
  datatype Option<+T> = None | Some(value: T)
}
