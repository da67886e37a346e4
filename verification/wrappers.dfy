/** The optional value used wherever the simulation holds "maybe a unit id". */
module Wrappers {

  datatype Option<+T> = None | Some(value: T)
}
