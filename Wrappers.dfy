/** Stock optional-value datatype: `None` stands for a JavaScript `undefined`
    (or `null`), or, for the result of a call that may throw, for the throw. */
module Wrappers {

  datatype Option<+T> = None | Some(value: T)
}
