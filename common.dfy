/** Values shared by both variants of the verification service: the answers the
    external collaborators (face model, image codec, filesystem listing) can give,
    the exceptions the handlers distinguish, and the HTTP response shape. */
module Common {

  datatype Option<+T> = None | Some(value: T) {
    function GetOr(default: T): T {
      match this
      case Some(v) => v
      case None => default
    }
  }

  type byte = x: int | 0 <= x < 256

  /** What one call of the face-verification primitive yields for a
      (query, candidate) pair: it raised, or it returned a result dictionary
      with a `verified` flag and an optional `distance` entry. */
  datatype Outcome = Failed | Verdict(verified: bool, distance: Option<real>)

  /** The exception classes the handlers tell apart. Messages are not modelled. */
  datatype Exception =
    | ValueError   // raised by the service itself for bad input or configuration
    | OSError      // the directory listing failed (missing, not a directory, no permission)
    | CvError      // the image codec raised while decoding, resizing or writing

  /** What the reference directory looks like at the moment it is listed. */
  datatype DirState =
    | Missing                        // the path does not exist
    | Unlistable                     // it exists but listing it raises
    | Listed(entries: seq<string>)   // its entries, in the order the OS yields them

  /** What the image codec makes of the uploaded bytes. */
  datatype DecodeOutcome = Decoded | NoImage | DecodeRaises

  /** What writing the resized image to the temporary path does. */
  datatype WriteOutcome = Written | NotWritten | WriteRaises

  /** The codec as seen by a handler: decoding depends on the bytes only. */
  datatype Codec = Codec(decode: seq<byte> -> DecodeOutcome, write: WriteOutcome)

  /** One multipart upload. A missing filename is `None`. */
  datatype Upload = Upload(filename: Option<string>, contents: seq<byte>)

  datatype Result<+T> = Ok(value: T) | Err(error: Exception)

  /** A handler's answer: a body with status 200, or an error status. */
  datatype Response<+T> = Success(body: T) | HttpError(status: int)
}
