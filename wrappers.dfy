/** The optional value used wherever the source reads a key with `dict.get` or a reply may be missing. */
module Wrappers {

  datatype Option<+T> = None | Some(value: T)

}
