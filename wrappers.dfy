/** The Option datatype: a value that may be absent (a DOM query that found nothing). */
module Wrappers {
  datatype Option<+T> = None | Some(value: T)
}
