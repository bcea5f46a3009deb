/** An optional value: a timetable cell that may be empty, or an outcome that may be missing. */
module Wrappers {

  datatype Option<+T> = None | Some(value: T)

}
