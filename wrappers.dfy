/** The conventional optional value, used for absent headers, failed token
    verification and lookups that find no row. */
module Wrappers {
  datatype Option<+T> = None | Some(value: T)
}
