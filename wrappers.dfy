/** The optional value used for JavaScript's `undefined`/`null` where the source allows it. */
module Wrappers {

  datatype Option<+T> = None | Some(value: T)
}
