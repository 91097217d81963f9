/** The optional value used wherever the modelled program has `None`, `null` or a missing key. */
module Wrappers {
  datatype Option<+T> = None | Some(value: T)
}
