/** Option and Result, used for the `Option`/`syn::Result` values the macro works with. */
module Wrappers {

  datatype Option<+T> = None | Some(value: T)

  datatype Result<+T, +E> = Ok(value: T) | Err(error: E)
}
