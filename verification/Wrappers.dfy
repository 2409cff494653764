/** The source's `Option`. */
module Wrappers {
  datatype Option<+T> = None | Some(value: T)
}

/** The two kinds of `ForgeError` that the store operations return. */
module StoreErrors {
  datatype Error = AlreadyExists | InvalidArgument

  datatype Result<+T> = Ok(value: T) | Err(error: Error)
}
