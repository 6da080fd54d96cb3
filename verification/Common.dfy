/** Vocabulary shared by every component. */
module Common {

  datatype Option<+T> = None | Some(value: T)

  /** The failure codes of the bridge's Error exception (cpp/include/bridge.h:14-25, without Ok). */
  datatype ErrorCode =
    | General
    | InvalidArgument
    | Unsupported
    | ProtocolState
    | Crypto
    | Rng
    | Io
    | Policy
    | Memory

  /** A call that either returns a value or throws an Error with the given code. */
  datatype Result<+T> = Ok(value: T) | Err(code: ErrorCode)

  type Byte = n: nat | n < 256

  type Bytes = seq<Byte>

  /** A JavaScript string is a sequence of UTF-16 units, well-formed or not. */
  type Unit = n: nat | n < 0x1_0000

  type Text = seq<Unit>
}
