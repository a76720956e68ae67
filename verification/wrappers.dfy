/** A minimal optional-value type, used for parses that can fail. */
module Wrappers {

  datatype Option<+T> = None | Some(value: T)

}
