/**
 * Well-formed UTF-8, as Rust's `String::from_utf8` accepts it: the byte
 * patterns of table 3-7 of the Unicode Standard (no overlong forms, no
 * surrogates, nothing above U+10FFFF).
 */
module Utf8 {
  import opened BigEndian

  predicate IsContinuation(b: byte) {
    0x80 <= b <= 0xBF
  }

  /** The length of the well-formed sequence that starts `s`, or 0 when `s` does not start with one. */
  function LeadingLength(s: seq<byte>): (k: nat)
    ensures k <= |s| && k <= 4
    ensures |s| > 0 && s[0] < 0x80 ==> k == 1
  {
    if |s| == 0 then 0
    else if s[0] < 0x80 then 1
    else if 0xC2 <= s[0] <= 0xDF then
      if |s| >= 2 && IsContinuation(s[1]) then 2 else 0
    else if s[0] == 0xE0 then
      if |s| >= 3 && 0xA0 <= s[1] <= 0xBF && IsContinuation(s[2]) then 3 else 0
    else if 0xE1 <= s[0] <= 0xEC || 0xEE <= s[0] <= 0xEF then
      if |s| >= 3 && IsContinuation(s[1]) && IsContinuation(s[2]) then 3 else 0
    else if s[0] == 0xED then
      if |s| >= 3 && 0x80 <= s[1] <= 0x9F && IsContinuation(s[2]) then 3 else 0
    else if s[0] == 0xF0 then
      if |s| >= 4 && 0x90 <= s[1] <= 0xBF && IsContinuation(s[2]) && IsContinuation(s[3]) then 4 else 0
    else if 0xF1 <= s[0] <= 0xF3 then
      if |s| >= 4 && IsContinuation(s[1]) && IsContinuation(s[2]) && IsContinuation(s[3]) then 4 else 0
    else if s[0] == 0xF4 then
      if |s| >= 4 && 0x80 <= s[1] <= 0x8F && IsContinuation(s[2]) && IsContinuation(s[3]) then 4 else 0
    else 0
  }

  /** `s` is a concatenation of well-formed UTF-8 sequences. */
  predicate IsUtf8(s: seq<byte>)
    decreases |s|
  {
    s == [] || (LeadingLength(s) > 0 && IsUtf8(s[LeadingLength(s)..]))
  }

  /** Bytes that are all ASCII are well-formed UTF-8. */
  lemma {:induction false} AsciiIsUtf8(s: seq<byte>)
    requires forall i :: 0 <= i < |s| ==> s[i] < 0x80
    ensures IsUtf8(s)
    decreases |s|
  {
    if s != [] {
      assert LeadingLength(s) == 1;
      AsciiIsUtf8(s[1..]);
    }
  }

  /** A well-formed sequence at the front of `a` is still the one at the front of `a + b`. */
  lemma LeadingLengthAppend(a: seq<byte>, b: seq<byte>)
    requires LeadingLength(a) > 0
    ensures LeadingLength(a + b) == LeadingLength(a)
  {
    assert forall i :: 0 <= i < |a| ==> (a + b)[i] == a[i];
  }

  /** Well-formed UTF-8 is closed under concatenation. */
  lemma {:induction false} Utf8Append(a: seq<byte>, b: seq<byte>)
    requires IsUtf8(a) && IsUtf8(b)
    ensures IsUtf8(a + b)
    decreases |a|
  {
    if a == [] {
      assert a + b == b;
    } else {
      var k := LeadingLength(a);
      LeadingLengthAppend(a, b);
      assert (a + b)[k..] == a[k..] + b;
      Utf8Append(a[k..], b);
    }
  }

  /** ASCII bytes in front of well-formed UTF-8 keep it well-formed. */
  lemma AsciiThen(a: seq<byte>, rest: seq<byte>)
    requires forall i :: 0 <= i < |a| ==> a[i] < 0x80
    requires IsUtf8(rest)
    ensures IsUtf8(a + rest)
  {
    AsciiIsUtf8(a);
    Utf8Append(a, rest);
  }
}
