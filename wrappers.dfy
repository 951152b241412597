/** The optional value that the source expresses as `undefined`: the result of
    `Array.prototype.find`, a missing `points` field, an absent award. */
module Wrappers {
  datatype Option<+T> = None | Some(value: T)
}
