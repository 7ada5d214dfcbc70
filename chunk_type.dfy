/**
 * The four-byte chunk type code, as far as the chunk codec relies on it.
 * Only two things of it are used: its bytes, and whether a four-byte array
 * is accepted as a type code when one is read from a buffer. The accepted
 * codes are those whose four bytes are all ASCII letters. A `ChunkType`
 * value is always an accepted code.
 */
module ChunkTypes {
  import opened Outcomes
  import opened BigEndian

  /** An ASCII upper-case or lower-case letter. */
  predicate IsTypeLetter(b: byte) {
    65 <= b <= 90 || 97 <= b <= 122
  }

  /** Whether `code` is accepted as a chunk type code. */
  predicate AcceptsTypeCode(code: seq<byte>) {
    |code| == 4 && forall i :: 0 <= i < 4 ==> IsTypeLetter(code[i])
  }

  /** A chunk type: an accepted four-byte code, compared byte by byte. */
  type ChunkType = code: seq<byte> | AcceptsTypeCode(code) witness [82, 117, 83, 116]

  datatype ChunkTypeError = InvalidBytes

  /** Reads a chunk type from four raw bytes; fails on a code that is not accepted. */
  function TryFromBytes(code: seq<byte>): (r: Result<ChunkType, ChunkTypeError>)
    requires |code| == 4
    ensures r.Ok? <==> AcceptsTypeCode(code)
    ensures r.Ok? ==> r.value == code
  {
    if AcceptsTypeCode(code) then Ok(code) else Err(InvalidBytes)
  }

  /** The four bytes of a chunk type; reading them back gives the same type. */
  function Bytes(t: ChunkType): (b: seq<byte>)
    ensures |b| == 4 && TryFromBytes(b) == Ok(t)
  {
    t
  }
}
