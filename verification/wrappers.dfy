/**
 * Optional values, used wherever the C library hands back a pointer that
 * may be NULL.
 */
module Wrappers {

  datatype Option<+T> = None | Some(value: T)
}
