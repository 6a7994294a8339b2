/** The absent-or-present value used where the component holds `null`/`undefined`. */
module Wrappers {

  datatype Option<+T> = None | Some(value: T)
}
