/** The optional-value datatype used throughout the model. */
module Wrappers {

  /** `None` stands for JavaScript's `undefined` (a missing property or prop). */
  datatype Option<+T> = None | Some(value: T)
}
