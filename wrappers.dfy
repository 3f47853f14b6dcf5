/** The optional value used for JavaScript's `null` / missing values. */
module Wrappers {

  datatype Option<+T> = None | Some(value: T)
}
