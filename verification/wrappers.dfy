/** A value that may be missing: JavaScript's `undefined` and the failed outcome of an external call. */
module Wrappers {

  datatype Option<+T> = None | Some(value: T)
}
