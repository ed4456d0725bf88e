/** Option and Result, the two wrappers the model uses for absent rows and
    for errors thrown by a service or raised by the database. */
module Wrappers {

  datatype Option<+T> = None | Some(value: T)

  datatype Result<+T, +E> = Ok(value: T) | Err(error: E)
}
