/** Outcomes of the dispatcher's operations: a value, or the exception the
    tensor library or the interpreter would raise. */
module Errors {

  datatype Option<T> = None | Some(value: T)

  datatype Error =
    | IndexOutOfRange    // a row index past the end of the input
    | ReshapeFailed      // `view(-1, batch_size)` cannot cut the index list into rows
    | EmptyConcat        // `torch.cat` of an empty list of expert outputs
    | ShapeMismatch      // expert outputs that do not fit the assignment list
    | UnboundBatchIndex  // `batch_index` read before it was assigned

  datatype Result<T> = Ok(value: T) | Err(error: Error)
}
