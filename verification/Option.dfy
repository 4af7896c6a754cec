/** The optional value used where the source returns "nothing" through a flag. */
module Opt {

  datatype Option<T> = None | Some(value: T)
}
