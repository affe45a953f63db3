/** A value that may be absent: a failed decode, a missing entry, a lookup that found nothing. */
module Wrappers {
  datatype Option<T> = None | Some(value: T)
}
