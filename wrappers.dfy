/** Failure-carrying wrappers shared by every module of the model.
    `None` also stands for a C# null where a value may be null. */
module Wrappers {

  datatype Option<+T> = None | Some(value: T)
}
