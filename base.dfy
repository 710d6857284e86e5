/** Go-level vocabulary shared by every module of the model: byte strings,
    the errors the core can return, and result wrappers. */
module Base {

  /** A Go byte. A Go `string` is an immutable sequence of bytes, so every
      identifier, name and MIME type of the model is a `Bytes`. */
  type byte = bv8
  type Bytes = seq<byte>

  /** The bytes Go stores for an ASCII string literal. */
  function Ascii(s: string): (r: Bytes)
    requires forall i | 0 <= i < |s| :: s[i] as int < 128
    ensures |r| == |s|
  {
    seq(|s|, i requires 0 <= i < |s| => (s[i] as int) as bv8)
  }

  /** The errors the core passes back to its callers. */
  datatype Error =
    | ENOENT              // fuse.ENOENT: the name is not in the directory
    | ErrReadDir          // drive.ERR_READDIR: content was requested for a folder
    | Remote(code: nat)   // an error returned by a Drive API call, left opaque

  /** A Go `(T, error)` return pair in which exactly one side is meaningful. */
  datatype Result<+T> = Ok(value: T) | Err(error: Error)

  /** A Go `error` return: nil (`Done`) or an error. */
  datatype Outcome = Done | Fail(error: Error)

  function Status<T>(r: Result<T>): (o: Outcome)
    ensures o.Done? <==> r.Ok?
    ensures o.Fail? ==> o.error == r.error
  {
    match r
    case Ok(_) => Done
    case Err(e) => Fail(e)
  }
}
