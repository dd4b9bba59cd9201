/** An optional value: `null` or absent in the app's terms. */
module Wrappers {
  datatype Option<+T> = None | Some(value: T)
}
