/** Failure-carrying results shared by the front end: the C++ code signals a
    failed parse with a null pointer, which the model writes as None. */
module Wrappers {

  datatype Option<+T> = None | Some(value: T)
}
