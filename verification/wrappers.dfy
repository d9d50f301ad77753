/** An optional value, for the places where the source returns `null` or `undefined`. */
module Wrappers {

  datatype Option<+T> = None | Some(value: T)
}
