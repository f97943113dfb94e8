/** The optional value shared by the other modules: `None` where Python raises or finds nothing. */
module Wrappers {

  datatype Option<+T> = None | Some(value: T)
}
