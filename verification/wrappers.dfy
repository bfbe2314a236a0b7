/** The optional-value wrapper used throughout the model: None stands for
    JavaScript's null or undefined where the controller helper reads them. */
module Wrappers {
  datatype Option<+T> = None | Some(value: T)
}
