# PNG chunk codec

A Dafny model of the chunk codec of PNGme (`src/chunk.rs`). The codec frames
one PNG chunk as section 5.3 of the PNG specification (W3C PNG, 2nd edition,
ISO/IEC 15948) lays it out:

    length (u32, big-endian) | chunk type (4 bytes) | data | CRC (u32, big-endian)

The CRC is the CRC-32 of section 5.5 of that specification, taken over the
type bytes followed by the data.

What the model contains:

- `Chunks.Chunk` is an immutable datatype with the four fields of the Rust
  struct. Its `Valid()` predicate is the invariant the codec keeps:
  `length == |data|`, and `crc` is the CRC-32 of type plus data.
- `Chunks.New` is `Chunk::new`. It models the `data.len() as u32` cast as a
  reduction modulo 2^32. `New` has no precondition, and its result is valid
  exactly when the payload is shorter than 2^32 bytes.
- `Chunks.CreateCrc` is `create_crc`. It drives an incremental hasher, the
  class `Crc.Hasher`, through `new`, two `update` calls and `finalize`, as the
  source drives `crc32fast::Hasher`.
- The hasher runs the bitwise reflected CRC-32: polynomial 0xEDB88320, initial
  register all ones, final complement. A ghost field records the bytes it has
  consumed, and its invariant ties the register to a fold over those bytes.
- `Chunks.AsBytes` is `as_bytes`: four appends to an empty buffer. It is
  proved equal to the function `Chunks.Encoding`, which states where each
  field lands.
- `Chunks.TryFrom` is `TryFrom<&[u8]>`. Its checks run in the source's order:
  1. fewer than 8 bytes;
  2. a refused type code;
  3. too few bytes for the declared length plus the CRC;
  4. a CRC mismatch.

  Bytes after the chunk are ignored.
- `Chunks.DataAsString` is `data_as_string`. It returns the payload when it is
  well-formed UTF-8 (module `Utf8`, following table 3-7 of the Unicode
  Standard).
- The accessors `length`, `crc`, `chunk_type` and `data` are the datatype's
  field selectors.
- Bytes are integers in `[0, 256)` and `u32` values are integers in
  `[0, 2^32)`. The CRC register is a `bv32`, and bytes enter it through
  `Crc.ByteBits`.
- Module `ChunkTests` restates the unit tests as lemmas, with the 42-byte
  payload and CRC 2882656334. The CRC is evaluated on those bytes four at a
  time.

`ChunkType` comes from `src/chunk_type.rs`, which is not part of this model.
The model takes `ChunkType::try_from` on four raw bytes to accept exactly
the codes whose four bytes are all ASCII letters (65-90, 97-122), and every
`ChunkType` value to be such a code.

The test message "This is where your secret message will be!" is 42 bytes,
and `try_from` checks the chunk type after the minimum length and before the
declared length (`src/chunk.rs:86-95`); the model keeps both.

## Model

| member | source | states |
|---|---|---|
| Chunks.Chunk.Valid | src/chunk.rs:6-11 | the struct invariant: the length field is the payload size and the CRC field is the CRC-32 of type plus payload; a valid payload is shorter than 2^32 bytes |
| Crc.Crc32 | src/chunk.rs:24-29 | the checksum the hasher finalizes to, defined as the reflected CRC-32 (polynomial 0xEDB88320, all-ones start, final complement); its contract states that the empty input gives 0, and `ChunkTests.TestMessageCrc` pins it to the source's reference value |
| BigEndian.FromBE32 | src/chunk.rs:79-83 | the big-endian reading of four bytes: each byte is recovered at its place value, the first as the most significant |
| Chunks.New | src/chunk.rs:14-22 | never fails; keeps type and data; length is the payload size mod 2^32; CRC is the CRC-32 of type bytes plus data; valid exactly when the payload is under 2^32 bytes |
| Chunks.CreateCrc | src/chunk.rs:23-30 | feeding the type bytes and then the data through a fresh hasher yields the CRC-32 of their concatenation |
| Crc.Hasher.constructor | src/chunk.rs:24 | a new hasher has consumed nothing and its register is the initial value |
| Crc.Hasher.Update | src/chunk.rs:26-27 | consumed bytes grow by exactly the given bytes, and the register stays the fold over everything consumed |
| Crc.Hasher.Finalize | src/chunk.rs:29 | the result is the CRC-32 of all bytes consumed so far |
| Crc.FoldAppend | src/chunk.rs:26-27 | folding `a + b` equals folding `a` and then `b`, which is why two `update` calls hash the concatenation |
| Chunks.Encoding | src/chunk.rs:46-55 | 12 + len bytes; big-endian length at 0..4, the type at 4..8, the data next, the big-endian CRC last |
| Chunks.AsBytes | src/chunk.rs:46-55 | the four appends produce exactly `Encoding(c)` |
| Chunks.TryFrom | src/chunk.rs:74-115 | short input gives TooShort; a refused type gives InvalidChunkType; missing bytes give MissingData; InvalidCrc exactly when the stored CRC differs from the recomputed one; success returns the stored fields, the result is valid and its encoding is a prefix of the input |
| Chunks.TryFromEncodingCrc | src/chunk.rs:92-107 | reading an encoding with a correct length, followed by anything, gives the chunk when its CRC matches and InvalidCrc otherwise |
| Chunks.TryFromEncoding | src/chunk.rs:109-114 | every valid chunk is read back from its encoding whatever bytes follow |
| Chunks.TryFromExactly | src/chunk.rs:74-115 | `TryFrom(value) == Ok(c)` if and only if `c` is valid and its encoding is a prefix of `value` |
| Chunks.RoundTrip | src/chunk.rs:14-22 | for a payload under 2^32 bytes, reading back the encoding of `New(t, d)` gives `New(t, d)` |
| Chunks.TryFromRejectsAlteredCrc | src/chunk.rs:99-107 | a valid chunk with a different stored CRC is refused with InvalidCrc |
| Chunks.TryFromRejectsTruncated | src/chunk.rs:76-95 | every proper prefix of a valid chunk's encoding is refused: with TooShort below 8 bytes, with MissingData from 8 bytes on |
| Chunks.DataAsString | src/chunk.rs:43-45 | succeeds exactly when the payload is well-formed UTF-8, and then returns the payload |
| ChunkTypes.TryFromBytes | src/chunk.rs:86-89 | accepts four bytes exactly when they form an accepted type code, returning the same bytes |
| ChunkTypes.Bytes | src/chunk.rs:50 | four bytes that read back as the same chunk type |
| BigEndian.ToBE32 | src/chunk.rs:49 | four bytes whose big-endian reading is the value |
| BigEndian.ToFromBE32 | src/chunk.rs:79-83 | writing back the value read from four bytes gives those bytes |
| Utf8.AsciiIsUtf8 | src/chunk.rs:44 | bytes that are all ASCII are well-formed UTF-8 |
| Utf8.Utf8Append | src/chunk.rs:44 | the concatenation of two well-formed UTF-8 sequences is well-formed |
| ChunkTests.TestMessageCrc | src/chunk.rs:173-177 | the CRC-32 of "RuSt" followed by the test message is 2882656334 |
| ChunkTests.TestNewChunk | src/chunk.rs:143-151 | `New` on the test vector has length 42 and CRC 2882656334 |
| ChunkTests.TestValidChunkFromBytes | src/chunk.rs:180-204 | the test buffer parses to length 42, type "RuSt", the message as payload and CRC 2882656334 |
| ChunkTests.TestMessageIsUtf8 | src/chunk.rs:197-202 | the test message is well-formed UTF-8 |
| ChunkTests.TestChunkString | src/chunk.rs:165-171 | the test chunk's payload reads back as the message |
| ChunkTests.TestInvalidChunkFromBytes | src/chunk.rs:206-225 | the test buffer with stored CRC 2882656333 is refused with InvalidCrc |

## Left out

- The `Display` impl (`src/chunk.rs:58-69`) and `test_chunk_trait_impls`, whose only extra step is formatting. Both are string formatting with a lossy UTF-8 conversion.
- `test_chunk_type` compares the type's textual rendering. `src/chunk_type.rs` is not part of this model, so `TestValidChunkFromBytes` compares the type bytes instead.
- The three `map_err` branches of `try_from` (`src/chunk.rs:82, 88, 102`) cannot be taken. Each converts a slice of exactly four bytes, which always succeeds, so the model has no error for them.
- `try_from` returns error texts. The model replaces them with the `Chunks.Error` variants, one per message.
- `String::from_utf8` returns a `String` or a `FromUtf8Error` with details. The model returns the payload bytes or a single error value.
- `8 + length as usize` (`src/chunk.rs:92`) is computed in unbounded integers. This matches a 64-bit `usize`, where it cannot overflow.
- Detection of corrupted payloads is not proved. That a single flipped payload bit makes `TryFrom` report `InvalidCrc` is a property of CRC-32 (its linearity over GF(2)); the model proves only that an altered stored CRC is refused (`Chunks.TryFromRejectsAlteredCrc`) and the concrete test vectors.
- `crc32fast` uses table-driven and SIMD code. The model computes the same CRC-32 bit by bit. `Hasher`'s consumed bytes are ghost state.
- `Vec::with_capacity` and the cloning and ownership of buffers have no counterpart in values.
- The chunk type's derived attributes (critical, public, reserved, safe-to-copy), its textual forms, and the container in `src/png.rs` are outside this model. `src/chunk_type.rs` and `src/png.rs` are not part of this model.
- The command-line layer (`src/main.rs`, `src/args.rs`, `src/commands.rs`) is outside this model. It does file I/O and console output.
