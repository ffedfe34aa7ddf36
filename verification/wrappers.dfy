/** Option and Result, used for the partial operations of the model:
    a decoder that may reject its input, a dictionary lookup that may miss. */
module Wrappers {

  datatype Option<+T> = None | Some(value: T)

  datatype Result<+T, +E> = Ok(value: T) | Err(error: E)
}
