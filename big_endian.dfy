/**
 * Bytes, 32-bit unsigned integers, and the conversions between a `u32` and
 * its four bytes in network (big-endian) order that Rust's
 * `u32::to_be_bytes` and `u32::from_be_bytes` perform.
 */
module BigEndian {
  type byte = x: int | 0 <= x < 0x100
  type u32 = x: int | 0 <= x < 0x1_0000_0000

  /** The bytes of `b`, most significant first, read as one 32-bit value. */
  function FromBE32(b: seq<byte>): (x: u32)
    requires |b| == 4
    ensures x / 0x100_0000 == b[0] && x / 0x1_0000 % 0x100 == b[1]
    ensures x / 0x100 % 0x100 == b[2] && x % 0x100 == b[3]
  {
    var q2 := b[0] as int * 0x100 + b[1] as int;
    var q1 := q2 * 0x100 + b[2] as int;
    var x := q1 * 0x100 + b[3] as int;
    DivModByte(q1, b[3]);
    DivModByte(q2, b[2]);
    DivModByte(b[0], b[1]);
    DivDiv(x);
    DivDiv(q1);
    assert x / 0x100_0000 == q1 / 0x1_0000;
    x
  }

  /** Dividing by 256 twice is dividing by 65536. */
  lemma DivDiv(n: nat)
    ensures n / 0x100 / 0x100 == n / 0x1_0000
  {
  }

  /** The four bytes of `x`, most significant first. */
  function ToBE32(x: u32): (b: seq<byte>)
    ensures |b| == 4 && FromBE32(b) == x
  {
    var q1 := x / 0x100;
    var q2 := q1 / 0x100;
    var q3 := q2 / 0x100;
    assert x == q1 * 0x100 + x % 0x100;
    assert q1 == q2 * 0x100 + q1 % 0x100;
    assert q2 == q3 * 0x100 + q2 % 0x100;
    [q3, q2 % 0x100, q1 % 0x100, x % 0x100]
  }

  /** Division by 256 undoes appending one byte. */
  lemma DivModByte(q: int, r: int)
    requires 0 <= r < 0x100
    ensures (q * 0x100 + r) / 0x100 == q && (q * 0x100 + r) % 0x100 == r
  {
  }

  /** Reading four bytes and writing the value back gives the same four bytes. */
  lemma ToFromBE32(b: seq<byte>)
    requires |b| == 4
    ensures ToBE32(FromBE32(b)) == b
  {
    var x := FromBE32(b);
    var q2 := b[0] as int * 0x100 + b[1] as int;
    var q1 := q2 * 0x100 + b[2] as int;
    assert x == q1 * 0x100 + b[3] as int;
    DivModByte(q1, b[3]);
    DivModByte(q2, b[2]);
    DivModByte(b[0], b[1]);
  }
}
