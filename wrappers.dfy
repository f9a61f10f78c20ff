/** The optional value a dictionary lookup such as `dict.get` returns. */
module Wrappers {

  datatype Option<+T> = None | Some(value: T)
}
