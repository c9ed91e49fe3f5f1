/** The optional-value datatype used across the model. */
module Wrappers {

  /** `None` stands for a value the engine never obtains: an undefined
      field, a failed lookup, a step that throws. */
  datatype Option<+T> = None | Some(value: T)
}
