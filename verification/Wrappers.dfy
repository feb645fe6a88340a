/** The one optional-value type the modules share: a JavaScript `undefined` or `null` result is `None`. */
module Wrappers {
  datatype Option<+T> = None | Some(value: T)
}
