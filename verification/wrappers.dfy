/** The optional-value datatype used throughout the model: a selection that
    may find nothing, a solution that may be absent, a trace field that may be unset. */
module Wrappers {

  datatype Option<+T> = None | Some(value: T)
}
