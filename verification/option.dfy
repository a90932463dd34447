/** The absent-or-present value used for JavaScript's `null`/`undefined` fields. */
module Opt {

  datatype Option<+T> = None | Some(value: T)

}
