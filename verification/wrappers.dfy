/** The nullable values of the component: React state that is either `null` or a value. */
module Wrappers {

  datatype Option<+T> = None | Some(value: T)
}
