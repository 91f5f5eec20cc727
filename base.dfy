/** Small value types shared by the whole model. */
module Base {

  /** One byte of an uploaded or produced file. */
  newtype Byte = x: int | 0 <= x < 256

  /** The bytes of a file; the PDF structure inside stays opaque. */
  type Bytes = seq<Byte>

  datatype Option<+T> = None | Some(value: T)

  /** A value, or the message of the exception that replaced it. */
  datatype Result<+T> = Ok(value: T) | Err(message: string)

  /** The outcome of a side-effecting call whose only result is whether it threw. */
  datatype Io = Completes | Throws(message: string)
}
