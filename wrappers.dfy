/** The Option and Result datatypes the model uses for
    lookups that may find nothing and for command errors. */
module Wrappers {

  datatype Option<+T> = None | Some(value: T)

  datatype Result<+R, +E> = Ok(value: R) | Err(error: E)
}
