/** The optional value used for a missing connection and a rejected statement. */
module Wrappers {

  datatype Option<+T> = None | Some(value: T)
}
