/** The optional value used throughout the model in place of JavaScript's
    `undefined` / `null` and of calls that may throw. */
module Wrappers {

  datatype Option<+T> = None | Some(value: T)
}
