/** The optional-value datatype the model returns where the engine uses
    `null` or leaves a scratch object unwritten. */
module Wrappers {

  datatype Option<+T> = None | Some(value: T)
}
