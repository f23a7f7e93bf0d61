/** The optional value used wherever the source reads a field that may be
    absent (`Partial<Activity>`, an optional timestamp) or produces a number
    that is not finite. */
module Wrappers {

  datatype Option<+T> = None | Some(value: T)
}
