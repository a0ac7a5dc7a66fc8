/** Optional values and error results used throughout the model.
    A pandas NaN (an undefined entry of a numeric column) is `None`;
    an exception raised by the source is `Err`. */
module Wrappers {

  datatype Option<+T> = None | Some(value: T)

  datatype Result<+T, +E> = Ok(value: T) | Err(error: E)
}
