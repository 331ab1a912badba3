/** The optional value used for JavaScript `null` and for absent map keys. */
module Wrappers {

  datatype Option<+T> = None | Some(value: T)
}
