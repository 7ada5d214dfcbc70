/**
 * The CRC-32 of section 5.5 of the PNG specification (W3C PNG, 2nd edition,
 * ISO/IEC 15948): the reflected polynomial 0xEDB88320, a register that starts
 * at all ones, and a final complement. `Fold` is the bitwise register update
 * over a byte sequence; `Hasher` models the incremental hasher interface
 * (new, update, finalize) through which the chunk code computes checksums.
 */
module Crc {
  import opened BigEndian

  const Polynomial: bv32 := 0xEDB8_8320
  const Initial: bv32 := 0xFFFF_FFFF
  const FinalXor: bv32 := 0xFFFF_FFFF

  /** One bit step of the reflected register. */
  function Shift(c: bv32): bv32 {
    if c & 1 == 1 then (c >> 1) ^ Polynomial else c >> 1
  }

  /** Eight bit steps: the effect of one input byte already combined into the register. */
  function Shift8(c: bv32): bv32 {
    Shift(Shift(Shift(Shift(Shift(Shift(Shift(Shift(c))))))))
  }

  /** The value of a 32-bit register as an unsigned integer. */
  function ToU32(x: bv32): u32 {
    x as int
  }

  /**
   * The eight bits of byte `b`, the value `b as bv8` would give. They are found
   * by subtracting the place values from the top rather than by that cast,
   * because the verifier handles integer-to-bit-vector casts of symbolic values
   * poorly and this form keeps the CRC proofs, the test vector included, cheap.
   */
  function ByteBits(b: byte): bv8 {
    var r7 := if b >= 0x80 then b - 0x80 else b;
    var r6 := if r7 >= 0x40 then r7 - 0x40 else r7;
    var r5 := if r6 >= 0x20 then r6 - 0x20 else r6;
    var r4 := if r5 >= 0x10 then r5 - 0x10 else r5;
    var r3 := if r4 >= 0x08 then r4 - 0x08 else r4;
    var r2 := if r3 >= 0x04 then r3 - 0x04 else r3;
    var r1 := if r2 >= 0x02 then r2 - 0x02 else r2;
    (if b >= 0x80 then 0x80 else 0) | (if r7 >= 0x40 then 0x40 else 0) |
    (if r6 >= 0x20 then 0x20 else 0) | (if r5 >= 0x10 then 0x10 else 0) |
    (if r4 >= 0x08 then 0x08 else 0) | (if r3 >= 0x04 then 0x04 else 0) |
    (if r2 >= 0x02 then 0x02 else 0) | (if r1 >= 0x01 then 0x01 else 0)
  }

  /** The bits of each byte of `s`, in order. */
  function Bits(s: seq<byte>): (r: seq<bv8>)
    ensures |r| == |s|
  {
    if s == [] then [] else [ByteBits(s[0])] + Bits(s[1..])
  }

  /** Converting a concatenation converts each part. */
  lemma {:induction false} BitsAppend(a: seq<byte>, b: seq<byte>)
    ensures Bits(a + b) == Bits(a) + Bits(b)
    decreases |a|
  {
    if a == [] {
      assert a + b == b;
    } else {
      assert (a + b)[0] == a[0];
      assert (a + b)[1..] == a[1..] + b;
      BitsAppend(a[1..], b);
    }
  }

  /** The register after feeding the eight bits `b`. */
  function UpdateByte(c: bv32, b: bv8): bv32 {
    Shift8(c ^ b as bv32)
  }

  /** The register after feeding the bytes of `s` in order, starting from `c`. */
  function Fold(c: bv32, s: seq<bv8>): bv32
    decreases |s|
  {
    if s == [] then c else Fold(UpdateByte(c, s[0]), s[1..])
  }

  /** The CRC-32 of `s`; the empty sequence has CRC 0, since the final complement undoes the initial one. */
  function Crc32(s: seq<byte>): (crc: u32)
    ensures s == [] ==> crc == 0
  {
    ToU32(Fold(Initial, Bits(s)) ^ FinalXor)
  }

  /** Feeding `a` and then `b` leaves the register where feeding `a + b` does. */
  lemma {:induction false} FoldAppend(c: bv32, a: seq<bv8>, b: seq<bv8>)
    ensures Fold(c, a + b) == Fold(Fold(c, a), b)
    decreases |a|
  {
    if a == [] {
      assert a + b == b;
    } else {
      assert (a + b)[0] == a[0];
      assert (a + b)[1..] == a[1..] + b;
      FoldAppend(UpdateByte(c, a[0]), a[1..], b);
    }
  }

  /** One window of the incremental hasher: the bytes it has consumed and its register. */
  class Hasher {
    ghost var consumed: seq<byte>
    var state: bv32

    ghost predicate Valid()
      reads this
    {
      state == Fold(Initial, Bits(consumed))
    }

    constructor ()
      ensures Valid() && consumed == []
    {
      state := Initial;
      consumed := [];
    }

    /** Feeds `bytes`, one at a time, into the register. */
    method Update(bytes: seq<byte>)
      requires Valid()
      modifies this
      ensures Valid() && consumed == old(consumed) + bytes
    {
      var i := 0;
      while i < |bytes|
        invariant 0 <= i <= |bytes|
        invariant consumed == old(consumed) + bytes[..i]
        invariant Valid()
      {
        BitsAppend(consumed, [bytes[i]]);
        FoldAppend(Initial, Bits(consumed), Bits([bytes[i]]));
        assert old(consumed) + bytes[..i + 1] == consumed + [bytes[i]];
        state := UpdateByte(state, ByteBits(bytes[i]));
        consumed := consumed + [bytes[i]];
        i := i + 1;
      }
      assert bytes[..|bytes|] == bytes;
    }

    /** The checksum of everything consumed so far. */
    function Finalize(): (crc: u32)
      reads this
      requires Valid()
      ensures crc == Crc32(consumed)
    {
      ToU32(state ^ FinalXor)
    }
  }
}
