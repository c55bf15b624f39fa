/** Failure-carrying values shared by the model: the source's exceptions and
    error replies become the Err / None cases of these. */
module Results {

  datatype Option<+T> = None | Some(value: T)

  datatype Result<+T, +E> = Ok(value: T) | Err(error: E)
}
