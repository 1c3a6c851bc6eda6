/** Option and Result, the stock wrappers used for Java's nullable returns and exceptions. */
module Wrappers {

  /** `None` stands for Java's `null`. */
  datatype Option<+T> = None | Some(value: T)

  /** `Thrown` stands for an exception that ends the call. */
  datatype Result<+T, +E> = Normal(value: T) | Thrown(error: E)
}
