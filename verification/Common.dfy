/** Result types shared by the models: Python's exceptions become `Err` values,
    and a value that may be `None` becomes an `Option`; and the bytes of a file or stream. */
module Common {

  datatype Option<+T> = None | Some(value: T)

  datatype Result<+T, +E> = Ok(value: T) | Err(error: E)

  type Byte = b: int | 0 <= b < 256
}
