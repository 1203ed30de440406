/** Small helper datatypes shared by the path finder and the army composer. */
module Wrappers {

  /** An optional value; `None` plays the role of a null reference. */
  datatype Option<T> = None | Some(value: T)
}
