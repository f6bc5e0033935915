/** The optional value used wherever the source has a dict key that may be absent
    or a call that may produce nothing. */
module Wrappers {

  datatype Option<+T> = None | Some(value: T)
}
