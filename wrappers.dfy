/** The absent-or-present value that JavaScript expresses with `null`, `undefined` or `-1`. */
module Wrappers {

  datatype Option<+T> = None | Some(value: T)

}
