/** Python's `None`-or-value, as used for every optional field of an artifact. */
module Wrappers {

  datatype Option<+T> = None | Some(value: T)

}
