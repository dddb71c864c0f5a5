/** The two wrappers the viewer's Rust code is written with: `Option<T>` and
    `Result<T, E>` (polars' `PolarsResult<T>` is `Result<T, PolarsError>`). */
module Wrappers {

  datatype Option<+T> = None | Some(value: T)

  datatype Result<+T, +E> = Ok(value: T) | Err(error: E)
}
