/**
 * Values shared by every module of the client model: byte strings, the
 * Option and Result wrappers the Go code expresses as `(value, error)`
 * pairs, and the errors the core can return.
 */
module Common {

  /** A Go `[]byte`. */
  type Bytes = seq<bv8>

  datatype Option<+T> = None | Some(value: T)

  /** A Go `(T, error)` pair where exactly one side is meaningful. */
  datatype Result<+T> = Ok(value: T) | Err(error: Error)

  /**
   * The stage a repository operation was in when it wrapped an underlying
   * error with `fmt.Errorf("<stage message>: %w", err)`; each constructor
   * stands for the fixed message the source uses at that stage.
   */
  datatype Stage =
    | OpenInput      // the input file could not be opened
    | CreateOutput   // the output file could not be created
    | ReadInput      // the input file could not be read
    | ReadNonce      // the 12-byte header could not be read
    | DecryptChunk   // a sealed chunk failed authentication

  datatype Error =
    | FileNotFound                      // apperrors.ErrFileNotFound
    | TokenNotFound                     // apperrors.ErrTokenNotFound
    | Message(text: string)             // errors.New(text), or an error a collaborator made up
    | PathError(op: string, path: string)  // an *os.PathError
    | Wrapped(stage: Stage, cause: Error)  // fmt.Errorf with %w

  function Min(a: int, b: int): (m: int)
    ensures m <= a && m <= b && (m == a || m == b)
  {
    if a <= b then a else b
  }
}
