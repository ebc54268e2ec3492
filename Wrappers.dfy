/** The "absent" result of a lookup: a map entry that is not there, a null pointer. */
module Wrappers {

  datatype Option<+T> = None | Some(value: T)

}
