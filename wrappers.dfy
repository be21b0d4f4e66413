/** The optional value used for the fields a run only gets once it is terminal. */
module Wrappers {

  datatype Option<+T> = None | Some(value: T)
}
