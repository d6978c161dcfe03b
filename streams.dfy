/**
 * Byte streams, errors and results shared by the transforms and the backends.
 *
 * A Go `io.Reader` is modelled by the bytes it yields followed by how it ends:
 * with `io.EOF` (no fault) or with an error (a fault).
 */
module Streams {

  type Bytes = seq<bv8>

  datatype Option<T> = None | Some(value: T)

  /** The error values the modelled code returns. */
  datatype Error =
    | IoFault(code: nat)              // a failure of an underlying stream or device
    | InvalidKeyLength                // NewAESTransformer: key is not 16, 24 or 32 bytes
    | CiphertextTooShort              // AES reverse: input shorter than the nonce
    | AuthenticationFailed            // AES-GCM Open rejected the ciphertext
    | CorruptBase64                   // base64.CorruptInputError
    | CorruptGzip                     // gzip header or stream error
    | RandomUnavailable               // crypto/rand failed
    | UnknownTransform(name: string)  // factory: unrecognised transform name
    | CreateFailed(path: string)      // os.Create failed
    | NotExist(path: string)          // os.Open of a missing file
    | FileTooLarge                    // backends.ErrFileTooLarge

  datatype Result<T> = Ok(value: T) | Err(error: Error)

  /** A reader that yields `data` and then ends with EOF (fault == None) or with `fault`. */
  datatype Reader = Reader(data: Bytes, fault: Option<Error>)

  /** An in-memory reader (bytes.NewReader, bytes.Buffer): it always ends with EOF. */
  function FromBytes(b: Bytes): (r: Reader)
    ensures r.fault == None && r.data == b
    ensures ReadAll(r) == Ok(b)
  {
    Reader(b, None)
  }

  /** io.ReadAll: all the bytes when the stream ends with EOF, the fault otherwise. */
  function ReadAll(r: Reader): (res: Result<Bytes>)
    ensures res.Ok? <==> r.fault == None
    ensures res.Ok? ==> res.value == r.data
    ensures res.Err? ==> res.error == r.fault.value
  {
    match r.fault
    case None => Ok(r.data)
    case Some(e) => Err(e)
  }
}
