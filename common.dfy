/** Failure-carrying values shared by the other modules: Python's `None` and
    raised exceptions become explicit results here. */
module Common {

  datatype Option<+T> = None | Some(value: T)

  datatype Result<+T, +E> = Ok(value: T) | Err(error: E)
}
