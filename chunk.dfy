/**
 * One PNG chunk, framed as section 5.3 of the PNG specification lays it out:
 *
 *   length (u32, big-endian) | chunk type (4 bytes) | data | CRC (u32, big-endian)
 *
 * where the CRC is the CRC-32 of the chunk type followed by the data. A chunk
 * is either built from a type and a payload (`New`, which computes length and
 * CRC) or read from a byte buffer (`TryFrom`, which checks them).
 */
module Chunks {
  import opened Outcomes
  import opened BigEndian
  import opened Crc
  import opened ChunkTypes
  import opened Utf8

  /** The number of values of a `u32`: the modulus of Rust's `as u32` cast. */
  const U32Modulus: int := 0x1_0000_0000

  /** The fields of a chunk, as the source's private struct stores them. */
  datatype Chunk = Chunk(length: u32, chunkType: ChunkType, data: seq<byte>, crc: u32) {

    /**
     * The length field counts the payload and the CRC field checks type and
     * payload; so a valid chunk's payload fits a `u32` length.
     */
    predicate Valid()
      ensures Valid() ==> |data| < U32Modulus
    {
      length == |data| && crc == Crc32(chunkType + data)
    }
  }

  /** Why reading a chunk from bytes failed. */
  datatype Error =
    | TooShort                              // fewer than 8 bytes: no length and type to read
    | InvalidChunkType(cause: ChunkTypeError) // the type bytes were refused, error passed on
    | MissingData                           // fewer bytes than the declared length needs
    | InvalidCrc                            // the stored CRC differs from the recomputed one

  /** The CRC of a type and payload, computed as the source does: through an incremental hasher. */
  method CreateCrc(chunkType: ChunkType, data: seq<byte>) returns (crc: u32)
    ensures crc == Crc32(chunkType + data)
  {
    var hasher := new Hasher();
    hasher.Update(Bytes(chunkType));
    hasher.Update(data);
    assert hasher.consumed == chunkType + data;
    crc := hasher.Finalize();
  }

  /**
   * A fresh chunk of type `chunkType` carrying `data`. It never fails; the
   * length is the payload size cast to `u32`, so the chunk is valid exactly
   * when the payload is shorter than 2^32 bytes.
   */
  function New(chunkType: ChunkType, data: seq<byte>): (c: Chunk)
    ensures c.chunkType == chunkType && c.data == data
    ensures c.length == |data| % U32Modulus
    ensures c.crc == Crc32(Bytes(chunkType) + data)
    ensures c.Valid() <==> |data| < U32Modulus
  {
    Chunk(|data| % U32Modulus, chunkType, data, Crc32(chunkType + data))
  }

  /** The framed bytes of a chunk: each field can be read back from its place. */
  function Encoding(c: Chunk): (bytes: seq<byte>)
    ensures |bytes| == 12 + |c.data|
    ensures FromBE32(bytes[..4]) == c.length
    ensures bytes[4..8] == Bytes(c.chunkType)
    ensures bytes[8..8 + |c.data|] == c.data
    ensures FromBE32(bytes[8 + |c.data|..]) == c.crc
  {
    var bytes := ToBE32(c.length) + Bytes(c.chunkType) + c.data + ToBE32(c.crc);
    assert bytes[..4] == ToBE32(c.length);
    assert bytes[8 + |c.data|..] == ToBE32(c.crc);
    bytes
  }

  /** Serialises a chunk the way the source does: four appends to an initially empty buffer. */
  method AsBytes(c: Chunk) returns (result: seq<byte>)
    ensures result == Encoding(c)
  {
    result := [];
    result := result + ToBE32(c.length);
    result := result + Bytes(c.chunkType);
    result := result + c.data;
    result := result + ToBE32(c.crc);
  }

  /** The length a buffer declares in its first four bytes. */
  function DeclaredLength(value: seq<byte>): nat
    requires |value| >= 4
  {
    FromBE32(value[..4])
  }

  /**
   * Reads one chunk from the front of `value`. The checks run in the order
   * of the source: at least 8 bytes, an accepted type code, enough bytes for
   * the declared payload and CRC, and then the CRC itself. Bytes after the
   * chunk are ignored; on success the chunk's encoding is a prefix of `value`.
   */
  function TryFrom(value: seq<byte>): (r: Result<Chunk, Error>)
    ensures |value| < 8 ==> r == Err(TooShort)
    ensures |value| >= 8 && !AcceptsTypeCode(value[4..8]) ==> r == Err(InvalidChunkType(InvalidBytes))
    ensures |value| >= 8 && AcceptsTypeCode(value[4..8]) && |value| < 12 + DeclaredLength(value)
            ==> r == Err(MissingData)
    ensures r == Err(InvalidCrc) <==>
              && |value| >= 8 && AcceptsTypeCode(value[4..8])
              && |value| >= 12 + DeclaredLength(value)
              && FromBE32(value[8 + DeclaredLength(value)..12 + DeclaredLength(value)])
                 != Crc32(value[4..8 + DeclaredLength(value)])
    ensures r.Ok? ==> && r.value.length == DeclaredLength(value)
                      && r.value.chunkType == value[4..8]
                      && r.value.data == value[8..8 + DeclaredLength(value)]
                      && r.value.crc == FromBE32(value[8 + DeclaredLength(value)..12 + DeclaredLength(value)])
    ensures r.Ok? ==> r.value.Valid() && |Encoding(r.value)| <= |value|
                      && Encoding(r.value) == value[..|Encoding(r.value)|]
  {
    if |value| < 8 then Err(TooShort)
    else
      var length := FromBE32(value[..4]);
      match TryFromBytes(value[4..8])
      case Err(e) => Err(InvalidChunkType(e))
      case Ok(chunkType) =>
        var n := 8 + length;
        if |value| < n + 4 then Err(MissingData)
        else
          var data := value[8..n];
          var crc := FromBE32(value[n..n + 4]);
          assert chunkType + data == value[4..n];
          if crc != Crc32(chunkType + data) then Err(InvalidCrc)
          else
            var c := Chunk(length, chunkType, data, crc);
            ToFromBE32(value[..4]);
            ToFromBE32(value[n..n + 4]);
            assert value[..8] == value[..4] + value[4..8];
            assert value[..n] == value[..8] + value[8..n];
            assert value[..n + 4] == value[..n] + value[n..n + 4];
            Ok(c)
  }

  /** The payload was not well-formed UTF-8. */
  datatype FromUtf8Error = FromUtf8Error

  /** Reads the payload as text: the payload itself when it is well-formed UTF-8. */
  function DataAsString(c: Chunk): (r: Result<seq<byte>, FromUtf8Error>)
    ensures r.Ok? <==> IsUtf8(c.data)
    ensures r.Ok? ==> r.value == c.data
  {
    if IsUtf8(c.data) then Ok(c.data) else Err(FromUtf8Error)
  }

  /** Reading the encoding of a chunk with correct length, followed by anything, recovers the chunk or reports its CRC. */
  lemma TryFromEncodingCrc(c: Chunk, rest: seq<byte>)
    requires c.length == |c.data|
    ensures TryFrom(Encoding(c) + rest) ==
              if c.crc == Crc32(c.chunkType + c.data) then Ok(c) else Err(InvalidCrc)
  {
    var e := Encoding(c);
    var value := e + rest;
    var n := 8 + |c.data|;
    assert value[..4] == e[..4];
    assert value[4..8] == e[4..8];
    assert value[8..n] == e[8..n];
    assert value[n..n + 4] == e[n..];
  }

  /** Every valid chunk is read back from its encoding, whatever bytes follow it. */
  lemma TryFromEncoding(c: Chunk, rest: seq<byte>)
    requires c.Valid()
    ensures TryFrom(Encoding(c) + rest) == Ok(c)
  {
    TryFromEncodingCrc(c, rest);
  }

  /** `TryFrom` accepts exactly the buffers that begin with the encoding of a valid chunk, and returns that chunk. */
  lemma TryFromExactly(value: seq<byte>, c: Chunk)
    ensures TryFrom(value) == Ok(c) <==> c.Valid() && Encoding(c) <= value
  {
    if c.Valid() && Encoding(c) <= value {
      var k := |Encoding(c)|;
      assert value == Encoding(c) + value[k..];
      TryFromEncoding(c, value[k..]);
    }
  }

  /** Round trip: reading back the serialised form of a fresh chunk gives the same chunk. */
  lemma RoundTrip(chunkType: ChunkType, data: seq<byte>)
    requires |data| < U32Modulus
    ensures TryFrom(Encoding(New(chunkType, data))) == Ok(New(chunkType, data))
  {
    var c := New(chunkType, data);
    TryFromEncoding(c, []);
    assert Encoding(c) + [] == Encoding(c);
  }

  /** A chunk whose stored CRC was altered is refused, whatever follows it. */
  lemma TryFromRejectsAlteredCrc(c: Chunk, crc: u32, rest: seq<byte>)
    requires c.Valid() && crc != c.crc
    ensures TryFrom(Encoding(c.(crc := crc)) + rest) == Err(InvalidCrc)
  {
    TryFromEncodingCrc(c.(crc := crc), rest);
  }

  /** A chunk cut short anywhere before its last byte is refused: too short below 8 bytes, missing data from there on. */
  lemma TryFromRejectsTruncated(c: Chunk, k: nat)
    requires c.Valid() && k < |Encoding(c)|
    ensures TryFrom(Encoding(c)[..k]) == if k < 8 then Err(TooShort) else Err(MissingData)
  {
    var e := Encoding(c);
    if k >= 8 {
      assert e[..k][..4] == e[..4];
      assert e[..k][4..8] == e[4..8];
    }
  }
}
