/** The optional value used where a step may have nothing to give. */
module Wrappers {

  datatype Option<T> = None | Some(value: T)
}
