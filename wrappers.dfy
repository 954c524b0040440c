/** The absent-or-present value used where the editor uses `null`. */
module Wrappers {

  datatype Option<+T> = None | Some(value: T)
}
