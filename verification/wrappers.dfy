/** The optional value used throughout the model: `undefined` in the source's
    `pop()`/`peek()`, and "no value" for a thrown error. */
module Wrappers {

  datatype Option<+T> = None | Some(value: T)

}
