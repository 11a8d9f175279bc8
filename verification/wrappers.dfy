/** The optional-value datatype the model uses for "no match" and "no such month". */
module Wrappers {

  datatype Option<+T> = None | Some(value: T)

}
