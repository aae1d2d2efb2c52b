/** Results shared by every component: a value that may be missing, and a call
    that either commits or is refused with a reason and changes nothing. */
module Outcomes {
  datatype Option<+T> = None | Some(value: T)

  datatype Result<+T, +E> = Committed(value: T) | Refused(reason: E)
}
