/**
 * UTF-8 (RFC 3629): the bytes a string is turned into before it is hashed.
 * A character takes one to four bytes; the first byte of each character
 * tells how many follow, which is what makes the encoding reversible.
 */
module Utf8 {
  import opened Wrappers

  newtype byte = x: int | 0 <= x < 256

  /** How many bytes a character with this first byte takes. */
  function SequenceLength(lead: byte): (n: nat)
    ensures 1 <= n <= 4
  {
    if lead < 0x80 then 1 else if lead < 0xE0 then 2 else if lead < 0xF0 then 3 else 4
  }

  /** The bytes of one character (section 3 of RFC 3629): the value's bits,
      six to a continuation byte, behind a first byte that gives the count. */
  function EncodeChar(c: char): (b: seq<byte>)
    ensures 1 <= |b| <= 4 && |b| == SequenceLength(b[0])
    ensures forall i :: 1 <= i < |b| ==> 0x80 <= b[i] < 0xC0
  {
    var v := c as int;
    var q1, r1 := v / 0x40, v % 0x40;
    var q2, r2 := q1 / 0x40, q1 % 0x40;
    var q3, r3 := q2 / 0x40, q2 % 0x40;
    if v < 0x80 then [v as byte]
    else if v < 0x800 then [(0xC0 + q1) as byte, (0x80 + r1) as byte]
    else if v < 0x10000 then [(0xE0 + q2) as byte, (0x80 + r2) as byte, (0x80 + r1) as byte]
    else [(0xF0 + q3) as byte, (0x80 + r3) as byte, (0x80 + r2) as byte, (0x80 + r1) as byte]
  }

  /** The bytes of a string: its characters' bytes, in order. */
  function Encode(s: string): (b: seq<byte>)
    ensures |b| >= |s|
  {
    if s == [] then [] else EncodeChar(s[0]) + Encode(s[1..])
  }

  /** The scalar value the bytes of one character spell, without checking them. */
  function CharValue(b: seq<byte>): int
    requires 1 <= |b| <= 4
  {
    if |b| == 1 then b[0] as int
    else if |b| == 2 then (b[0] as int - 0xC0) * 0x40 + (b[1] as int - 0x80)
    else if |b| == 3 then ((b[0] as int - 0xE0) * 0x40 + (b[1] as int - 0x80)) * 0x40 + (b[2] as int - 0x80)
    else (((b[0] as int - 0xF0) * 0x40 + (b[1] as int - 0x80)) * 0x40 + (b[2] as int - 0x80)) * 0x40 + (b[3] as int - 0x80)
  }

  predicate IsScalarValue(v: int) {
    0 <= v < 0xD800 || 0xE000 <= v < 0x11_0000
  }

  /** Reading bytes back into characters; None when they do not spell a string. */
  function Decode(b: seq<byte>): (s: Option<string>)
    decreases |b|
  {
    if b == [] then Some([])
    else
      var n := SequenceLength(b[0]);
      if |b| < n || !IsScalarValue(CharValue(b[..n])) then None
      else match Decode(b[n..])
        case None => None
        case Some(rest) => Some([CharValue(b[..n]) as char] + rest)
  }

  lemma CharValueOfEncodeChar(c: char)
    ensures CharValue(EncodeChar(c)) == c as int
  {
    var v := c as int;
    var q1 := v / 0x40;
    var q2 := q1 / 0x40;
    assert v == q1 * 0x40 + v % 0x40;
    assert q1 == q2 * 0x40 + q1 % 0x40;
    assert q2 == q2 / 0x40 * 0x40 + q2 % 0x40;
  }

  /** Decoding undoes encoding, so the encoding is one-to-one. */
  lemma {:induction false} DecodeEncode(s: string)
    ensures Decode(Encode(s)) == Some(s)
  {
    if s != [] {
      var b := Encode(s);
      var head := EncodeChar(s[0]);
      assert b == head + Encode(s[1..]);
      assert b[0] == head[0] && b[..|head|] == head && b[|head|..] == Encode(s[1..]);
      CharValueOfEncodeChar(s[0]);
      DecodeEncode(s[1..]);
      assert s == [s[0]] + s[1..];
    }
  }

  lemma EncodeInjective(s: string, t: string)
    requires Encode(s) == Encode(t)
    ensures s == t
  {
    DecodeEncode(s);
    DecodeEncode(t);
  }

  lemma {:induction false} EncodeAppend(s: string, t: string)
    ensures Encode(s + t) == Encode(s) + Encode(t)
  {
    if s == [] {
      assert s + t == t;
    } else {
      assert (s + t)[0] == s[0] && (s + t)[1..] == s[1..] + t;
      EncodeAppend(s[1..], t);
    }
  }
}
