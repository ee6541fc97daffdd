/** A value that may be absent; `None` stands for JavaScript's `null` (or a SQL NULL). */
module Wrappers {

  datatype Option<+T> = None | Some(value: T)
}
