/** The optional value used for lookups that may find nothing, and the byte. */
module Wrappers {

  datatype Option<+T> = None | Some(value: T)

  newtype byte = b: int | 0 <= b < 256

}
