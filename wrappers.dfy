/** A value that may be absent: JavaScript's null, undefined and a missing
    table entry. */
module Wrappers {

  datatype Option<+T> = None | Some(value: T)
}
