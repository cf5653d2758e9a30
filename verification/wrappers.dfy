/** The absent-or-present value used wherever the C code passes or returns a
    possibly-NULL `Matrix *`. */
module Wrappers {

  datatype Option<+T> = None | Some(value: T)
}
