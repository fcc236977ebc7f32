/** The optional-value datatype used wherever the modelled code returns
    `null` or leaves a variable `undefined`. */
module Wrappers {

  datatype Option<+T> = None | Some(value: T)
}
