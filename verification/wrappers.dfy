/** The absent-or-present value that a JavaScript lookup returns as
    `undefined` or the found object. */
module Wrappers {

  datatype Option<+T> = None | Some(value: T)
}
