/** The absent-or-present result used where the C# code returns a reference that may be null. */
module Wrappers {

  datatype Option<+T> = None | Some(value: T)
}
