/** What a lookup may miss and what an operation may refuse. */
module Results {
  datatype Option<T> = None | Some(value: T)
  datatype Result<T, E> = Ok(value: T) | Err(error: E)
}
