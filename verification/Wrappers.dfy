/** An optional value, as the models use it for lookups that may find nothing. */
module Wrappers {
  datatype Option<+T> = None | Some(value: T)
}
