/** Option, used for JavaScript's `null` / `undefined` and for "no event was dispatched". */
module Wrappers {

  datatype Option<+T> = None | Some(value: T)
}
