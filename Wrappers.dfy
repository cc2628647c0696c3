/** Optional values: Java's nullable references, written out. */
module Wrappers {

  datatype Option<+T> = None | Some(value: T)

  /** The outcome of a Java method that may end in an unchecked exception. */
  datatype Exception = ArrayIndexOutOfBounds

  datatype Outcome<+T> = Returned(value: T) | Threw(exception: Exception)
}
