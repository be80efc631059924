/** Small value types shared by every module of the model. */
module Common {

  /** One byte of a file's contents. */
  newtype byte = x: int | 0 <= x < 256

  type Bytes = seq<byte>

  /** The file system's regular files: path to contents. */
  type Files = map<string, Bytes>

  /** Python's `None`-or-value. */
  datatype Option<+T> = None | Some(value: T)

  /** A value or the exception the source raises instead. */
  datatype Result<+T, +E> = Ok(value: T) | Err(error: E)
}
