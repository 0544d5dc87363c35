/** The optional-value datatype used where the program either has a value or
    swallowed a failure. */
module Wrappers {

  datatype Option<+T> = None | Some(value: T)
}
