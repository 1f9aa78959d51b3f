/** Values shared by every part of the model: bytes, optional values and the
    outcome of an operation that can fail. */
module Types {

  /** An octet, Go's `byte`. */
  type Byte = x: int | 0 <= x < 256

  /** Go's `[]byte`; a nil slice and an empty one are both `[]`. */
  type Bytes = seq<Byte>

  /** A Go pointer that may be nil. */
  datatype Option<+T> = None | Some(value: T)

  /** The step at which an operation failed. The Go code wraps every error in a
      message naming the failed step; the model keeps the step and drops the
      text. */
  datatype Error =
    | KeyGenFailure      // the key generator failed
    | MalformedKey       // key bytes do not decode to a key
    | ReadFailure        // the key file could not be read
    | EncryptionFailure  // the ECIES encryption primitive failed
    | DecryptionFailure  // the ECIES decryption primitive failed
    | SigningFailure     // the signing primitive failed
    | InvalidSignature   // the verification primitive answered false
    | DecodeFailure      // a signature string is not base64url

  /** A Go `(T, error)` pair: either a value and a nil error, or a nil value
      and an error. */
  datatype Result<+T> = Success(value: T) | Failure(error: Error)

  /** A bare Go `error` result: nil, or an error. */
  datatype Outcome = Pass | Fail(error: Error)
}
