/** The optional value used wherever the JavaScript source has a value that may be
    `undefined` or `null` (an optional description, an absent JSON member). */
module Wrappers {
  datatype Option<+T> = None | Some(value: T)
}
