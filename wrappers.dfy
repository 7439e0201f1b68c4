/** The optional value used wherever the Java code may answer "nothing" (a null, a failed parse). */
module Wrappers {
  datatype Option<T> = None | Some(value: T)
}
