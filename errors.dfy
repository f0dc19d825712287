/** The failures the record layer raises, and the wrappers that carry them.
    Each constructor of Error stands for the Python exception class the
    record layer raises in that situation. */
module Errors {

  datatype Error =
    | ValueError              // no revision selector given, unknown index name, hash absent from a rebuilt chain
    | IndexError              // revision out of range or not in the chain, empty fetch result
    | KeyError(key: string)   // a key absent from an index's hashmap
    | AttributeError(name: string)  // a record without the field an index is built on
    | AlreadyForgotten        // forget on a record that was already forgotten

  datatype Option<+T> = None | Some(value: T)

  /** A value, or the error that was raised instead. */
  datatype Result<+T> = Ok(value: T) | Err(error: Error)

  /** Normal return, or the error that was raised. */
  datatype Outcome = Pass | Fail(error: Error)
}
