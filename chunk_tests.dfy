/**
 * The fixed vectors of the unit tests that accompany the chunk code: chunk
 * type "RuSt", the 42-byte ASCII message "This is where your secret message
 * will be!" and its CRC 2882656334. The message is written as its ASCII
 * codes in blocks of four, so that the CRC can be evaluated one block at a
 * time (`Block0` to `Block11`, each a step of the register from one known
 * value to the next) and its UTF-8 well-formedness shown block by block.
 */
module ChunkTests {
  import opened Outcomes
  import opened BigEndian
  import opened Crc
  import opened ChunkTypes
  import opened Utf8
  import opened Chunks

  const TestType: ChunkType := [82, 117, 83, 116]

  /** The message: its ASCII codes, four at a time; `MessageFrom<i>` is the message from byte `i` on. */
  const TestMessage: seq<byte> := [84, 104, 105, 115] + MessageFrom4
  const MessageFrom4: seq<byte> := [32, 105, 115, 32] + MessageFrom8
  const MessageFrom8: seq<byte> := [119, 104, 101, 114] + MessageFrom12
  const MessageFrom12: seq<byte> := [101, 32, 121, 111] + MessageFrom16
  const MessageFrom16: seq<byte> := [117, 114, 32, 115] + MessageFrom20
  const MessageFrom20: seq<byte> := [101, 99, 114, 101] + MessageFrom24
  const MessageFrom24: seq<byte> := [116, 32, 109, 101] + MessageFrom28
  const MessageFrom28: seq<byte> := [115, 115, 97, 103] + MessageFrom32
  const MessageFrom32: seq<byte> := [101, 32, 119, 105] + MessageFrom36
  const MessageFrom36: seq<byte> := [108, 108, 32, 98] + MessageFrom40
  const MessageFrom40: seq<byte> := [101, 33]

  const TestCrc: u32 := 2882656334

  /** The buffer the tests assemble: length 42, the type, the message and the given CRC. */
  function TestChunkBytes(crc: u32): seq<byte> {
    ToBE32(42) + TestType + TestMessage + ToBE32(crc)
  }

  /** Feeding the bits of `a + b` is feeding those of `a` and then those of `b`. */
  lemma FoldBitsAppend(c: bv32, a: seq<byte>, b: seq<byte>)
    ensures Fold(c, Bits(a + b)) == Fold(Fold(c, Bits(a)), Bits(b))
  {
    BitsAppend(a, b);
    FoldAppend(c, Bits(a), Bits(b));
  }

  /** Bytes 0 to 3 of the vector move the register from 0xFFFFFFFF to 0x2B7BF6C3. */
  lemma Block0(rest: seq<byte>)
    ensures Fold(0xFFFFFFFF, Bits([82, 117, 83, 116] + rest)) == Fold(0x2B7BF6C3, Bits(rest))
  {
    FoldBitsAppend(0xFFFFFFFF, [82, 117, 83, 116], rest);
    assert Fold(0xFFFFFFFF, Bits([82, 117, 83, 116])) == 0x2B7BF6C3 by {
      assert Bits([82, 117, 83, 116]) == [82, 117, 83, 116];
    }
  }

  /** Bytes 4 to 7 of the vector move the register from 0x2B7BF6C3 to 0xCA5EE5F2. */
  lemma Block1(rest: seq<byte>)
    ensures Fold(0x2B7BF6C3, Bits([84, 104, 105, 115] + rest)) == Fold(0xCA5EE5F2, Bits(rest))
  {
    FoldBitsAppend(0x2B7BF6C3, [84, 104, 105, 115], rest);
    assert Fold(0x2B7BF6C3, Bits([84, 104, 105, 115])) == 0xCA5EE5F2 by {
      assert Bits([84, 104, 105, 115]) == [84, 104, 105, 115];
    }
  }

  /** Bytes 8 to 11 of the vector move the register from 0xCA5EE5F2 to 0x0487C27F. */
  lemma Block2(rest: seq<byte>)
    ensures Fold(0xCA5EE5F2, Bits([32, 105, 115, 32] + rest)) == Fold(0x0487C27F, Bits(rest))
  {
    FoldBitsAppend(0xCA5EE5F2, [32, 105, 115, 32], rest);
    assert Fold(0xCA5EE5F2, Bits([32, 105, 115, 32])) == 0x0487C27F by {
      assert Bits([32, 105, 115, 32]) == [32, 105, 115, 32];
    }
  }

  /** Bytes 12 to 15 of the vector move the register from 0x0487C27F to 0xC475B53E. */
  lemma Block3(rest: seq<byte>)
    ensures Fold(0x0487C27F, Bits([119, 104, 101, 114] + rest)) == Fold(0xC475B53E, Bits(rest))
  {
    FoldBitsAppend(0x0487C27F, [119, 104, 101, 114], rest);
    assert Fold(0x0487C27F, Bits([119, 104, 101, 114])) == 0xC475B53E by {
      assert Bits([119, 104, 101, 114]) == [119, 104, 101, 114];
    }
  }

  /** Bytes 16 to 19 of the vector move the register from 0xC475B53E to 0x0A65C7D4. */
  lemma Block4(rest: seq<byte>)
    ensures Fold(0xC475B53E, Bits([101, 32, 121, 111] + rest)) == Fold(0x0A65C7D4, Bits(rest))
  {
    FoldBitsAppend(0xC475B53E, [101, 32, 121, 111], rest);
    assert Fold(0xC475B53E, Bits([101, 32, 121, 111])) == 0x0A65C7D4 by {
      assert Bits([101, 32, 121, 111]) == [101, 32, 121, 111];
    }
  }

  /** Bytes 20 to 23 of the vector move the register from 0x0A65C7D4 to 0x92953043. */
  lemma Block5(rest: seq<byte>)
    ensures Fold(0x0A65C7D4, Bits([117, 114, 32, 115] + rest)) == Fold(0x92953043, Bits(rest))
  {
    FoldBitsAppend(0x0A65C7D4, [117, 114, 32, 115], rest);
    assert Fold(0x0A65C7D4, Bits([117, 114, 32, 115])) == 0x92953043 by {
      assert Bits([117, 114, 32, 115]) == [117, 114, 32, 115];
    }
  }

  /** Bytes 24 to 27 of the vector move the register from 0x92953043 to 0xD945629F. */
  lemma Block6(rest: seq<byte>)
    ensures Fold(0x92953043, Bits([101, 99, 114, 101] + rest)) == Fold(0xD945629F, Bits(rest))
  {
    FoldBitsAppend(0x92953043, [101, 99, 114, 101], rest);
    assert Fold(0x92953043, Bits([101, 99, 114, 101])) == 0xD945629F by {
      assert Bits([101, 99, 114, 101]) == [101, 99, 114, 101];
    }
  }

  /** Bytes 28 to 31 of the vector move the register from 0xD945629F to 0xEDEACE9A. */
  lemma Block7(rest: seq<byte>)
    ensures Fold(0xD945629F, Bits([116, 32, 109, 101] + rest)) == Fold(0xEDEACE9A, Bits(rest))
  {
    FoldBitsAppend(0xD945629F, [116, 32, 109, 101], rest);
    assert Fold(0xD945629F, Bits([116, 32, 109, 101])) == 0xEDEACE9A by {
      assert Bits([116, 32, 109, 101]) == [116, 32, 109, 101];
    }
  }

  /** Bytes 32 to 35 of the vector move the register from 0xEDEACE9A to 0xB3EB484F. */
  lemma Block8(rest: seq<byte>)
    ensures Fold(0xEDEACE9A, Bits([115, 115, 97, 103] + rest)) == Fold(0xB3EB484F, Bits(rest))
  {
    FoldBitsAppend(0xEDEACE9A, [115, 115, 97, 103], rest);
    assert Fold(0xEDEACE9A, Bits([115, 115, 97, 103])) == 0xB3EB484F by {
      assert Bits([115, 115, 97, 103]) == [115, 115, 97, 103];
    }
  }

  /** Bytes 36 to 39 of the vector move the register from 0xB3EB484F to 0x32B92B1E. */
  lemma Block9(rest: seq<byte>)
    ensures Fold(0xB3EB484F, Bits([101, 32, 119, 105] + rest)) == Fold(0x32B92B1E, Bits(rest))
  {
    FoldBitsAppend(0xB3EB484F, [101, 32, 119, 105], rest);
    assert Fold(0xB3EB484F, Bits([101, 32, 119, 105])) == 0x32B92B1E by {
      assert Bits([101, 32, 119, 105]) == [101, 32, 119, 105];
    }
  }

  /** Bytes 40 to 43 of the vector move the register from 0x32B92B1E to 0x7F0B93F5. */
  lemma Block10(rest: seq<byte>)
    ensures Fold(0x32B92B1E, Bits([108, 108, 32, 98] + rest)) == Fold(0x7F0B93F5, Bits(rest))
  {
    FoldBitsAppend(0x32B92B1E, [108, 108, 32, 98], rest);
    assert Fold(0x32B92B1E, Bits([108, 108, 32, 98])) == 0x7F0B93F5 by {
      assert Bits([108, 108, 32, 98]) == [108, 108, 32, 98];
    }
  }

  /** Bytes 44 to 45 of the vector move the register from 0x7F0B93F5 to 0x542E27B1. */
  lemma Block11(rest: seq<byte>)
    ensures Fold(0x7F0B93F5, Bits([101, 33] + rest)) == Fold(0x542E27B1, Bits(rest))
  {
    FoldBitsAppend(0x7F0B93F5, [101, 33], rest);
    assert Fold(0x7F0B93F5, Bits([101, 33])) == 0x542E27B1 by {
      assert Bits([101, 33]) == [101, 33];
    }
  }

  /** The CRC-32 of "RuSt" followed by the test message. */
  lemma TestMessageCrc()
    ensures Crc32(TestType + TestMessage) == TestCrc
  {
    assert TestType == [82, 117, 83, 116];
    Block0(TestMessage);
    Block1(MessageFrom4);
    Block2(MessageFrom8);
    Block3(MessageFrom12);
    Block4(MessageFrom16);
    Block5(MessageFrom20);
    Block6(MessageFrom24);
    Block7(MessageFrom28);
    Block8(MessageFrom32);
    Block9(MessageFrom36);
    Block10(MessageFrom40);
    Block11([]);
    assert MessageFrom40 + [] == MessageFrom40;
  }

  /** `Chunk::new` on the test vector: length 42 and CRC 2882656334. */
  lemma TestNewChunk()
    ensures New(TestType, TestMessage).length == 42
    ensures New(TestType, TestMessage).crc == TestCrc
  {
    TestMessageCrc();
  }

  /** Any buffer holding the test chunk with the given CRC is the encoding of that chunk. */
  lemma TestChunkEncoding(value: seq<byte>, crc: u32)
    requires value == TestChunkBytes(crc)
    ensures value == Encoding(Chunk(42, TestType, TestMessage, crc)) + []
  {
  }

  /**
   * Reading the test buffer with the right CRC succeeds and gives length 42,
   * type "RuSt", the message as payload and CRC 2882656334.
   */
  lemma TestValidChunkFromBytes()
    ensures TryFrom(TestChunkBytes(TestCrc)) == Ok(Chunk(42, TestType, TestMessage, TestCrc))
  {
    TestMessageCrc();
    TestChunkEncoding(TestChunkBytes(TestCrc), TestCrc);
    TryFromEncoding(Chunk(42, TestType, TestMessage, TestCrc), []);
  }

  /** Reading the test buffer with CRC 2882656333 instead fails on the CRC check. */
  lemma TestInvalidChunkFromBytes()
    ensures TryFrom(TestChunkBytes(2882656333)) == Err(InvalidCrc)
  {
    TestMessageCrc();
    TestChunkEncoding(TestChunkBytes(2882656333), 2882656333);
    TryFromRejectsAlteredCrc(Chunk(42, TestType, TestMessage, TestCrc), 2882656333, []);
  }

  /** The message from byte 20 on is well-formed UTF-8. */
  lemma TestMessageTailIsUtf8()
    ensures IsUtf8(MessageFrom20)
  {
    AsciiIsUtf8(MessageFrom40);
    AsciiThen([108, 108, 32, 98], MessageFrom40);
    AsciiThen([101, 32, 119, 105], MessageFrom36);
    AsciiThen([115, 115, 97, 103], MessageFrom32);
    AsciiThen([116, 32, 109, 101], MessageFrom28);
    AsciiThen([101, 99, 114, 101], MessageFrom24);
  }

  /** The message is well-formed UTF-8: each block is ASCII, and concatenation keeps UTF-8 well-formed. */
  lemma TestMessageIsUtf8()
    ensures IsUtf8(TestMessage)
  {
    TestMessageTailIsUtf8();
    AsciiThen([117, 114, 32, 115], MessageFrom20);
    AsciiThen([101, 32, 121, 111], MessageFrom16);
    AsciiThen([119, 104, 101, 114], MessageFrom12);
    AsciiThen([32, 105, 115, 32], MessageFrom8);
    AsciiThen([84, 104, 105, 115], MessageFrom4);
  }

  /** The test chunk's payload reads back as the message text. */
  lemma TestChunkString()
    ensures DataAsString(Chunk(42, TestType, TestMessage, TestCrc)) == Ok(TestMessage)
  {
    TestMessageIsUtf8();
  }
}

