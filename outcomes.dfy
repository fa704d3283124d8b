/** Error outcomes of the convolution engine: each constructor names the Python
    exception the program raises on that path. */
module Outcomes {

  datatype Error =
    | IndexError          // indexing an empty tensor axis
    | ValueError          // argument validation (`raise ValueError`, `int(nan)`)
    | NotImplementedError // unknown convolution or sampling variant
    | TypeError           // object used with an operation it does not support
    | AttributeError      // attribute that the object does not have
    | RuntimeError        // tensor shapes that do not agree (einsum, slice assignment)
    | UnboundLocalError   // a loop variable read after a loop that never ran

  datatype Result<+T> = Ok(value: T) | Err(error: Error)

  /** An optional argument (`None` in the program). */
  datatype Option<+T> = None | Some(value: T)
}
