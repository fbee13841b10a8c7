/** The optional value that stands for JavaScript's `undefined` results
    (`Array.prototype.find`, optional chaining). */
module Wrappers {

  datatype Option<+T> = None | Some(value: T)
}
