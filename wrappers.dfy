/** An optional value: `None` where the source has a missing directory or an absent body. */
module Wrappers {

  datatype Option<+T> = None | Some(value: T)
}
