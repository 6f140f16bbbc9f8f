/** Python values that the modelled functions can return: a value, None, or a raised exception. */
module Py {

  /** The exceptions that the modelled code can raise. */
  datatype PyError =
    | IndexError   // positional indexing (`iloc[-1]`) on an empty frame
    | NameError    // a name that was never imported

  /** The outcome of calling a Python function. */
  datatype Py<T> =
    | Returns(value: T)
    | ReturnsNone
    | Raises(error: PyError)
}
