/** The optional value used where a Go function reports "no match". */
module Wrappers {

  datatype Option<+T> = None | Some(value: T)
}
