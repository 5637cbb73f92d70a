/** The optional value the JavaScript code writes as `null` or a missing entry. */
module Wrappers {

  datatype Option<+T> = None | Some(value: T)
}
