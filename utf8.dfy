/**
 * Go strings are byte sequences holding UTF-8 text; this model keeps text as
 * sequences of Unicode scalar values and converts with `Encode` where Go
 * writes `[]byte(s)` or compares `string(bytes)` with a string.
 */
module Utf8 {

  type byte = b: int | 0 <= b < 256

  /** Number of bytes UTF-8 uses for a scalar value. */
  function Width(c: char): (w: nat)
    ensures 1 <= w <= 4
  {
    var n := c as int;
    if n < 0x80 then 1 else if n < 0x800 then 2 else if n < 0x1_0000 then 3 else 4
  }

  /** The UTF-8 bytes of one scalar value; the lead byte tells the width. */
  function EncodeChar(c: char): (bs: seq<byte>)
    ensures |bs| == Width(c)
    ensures |bs| == 1 <==> bs[0] < 0x80
    ensures |bs| == 2 <==> 0xC0 <= bs[0] < 0xE0
    ensures |bs| == 3 <==> 0xE0 <= bs[0] < 0xF0
    ensures |bs| == 4 <==> 0xF0 <= bs[0] < 0xF8
    ensures forall i :: 1 <= i < |bs| ==> 0x80 <= bs[i] < 0xC0
  {
    var n := c as int;
    if n < 0x80 then [n]
    else if n < 0x800 then [0xC0 + n / 64, 0x80 + n % 64]
    else if n < 0x1_0000 then [0xE0 + n / 4096, 0x80 + (n / 64) % 64, 0x80 + n % 64]
    else [0xF0 + n / 262144, 0x80 + (n / 4096) % 64, 0x80 + (n / 64) % 64, 0x80 + n % 64]
  }

  /** `[]byte(s)`: the UTF-8 encoding of a whole string. */
  function Encode(s: string): (bs: seq<byte>)
    ensures |s| <= |bs| <= 4 * |s|
  {
    if s == [] then [] else EncodeChar(s[0]) + Encode(s[1..])
  }

  /** The scalar value a well-formed encoding of one character stands for. */
  function DecodeChar(bs: seq<int>): int
    requires 1 <= |bs| <= 4
  {
    if |bs| == 1 then bs[0]
    else if |bs| == 2 then (bs[0] - 0xC0) * 64 + (bs[1] - 0x80)
    else if |bs| == 3 then (bs[0] - 0xE0) * 4096 + (bs[1] - 0x80) * 64 + (bs[2] - 0x80)
    else (bs[0] - 0xF0) * 262144 + (bs[1] - 0x80) * 4096 + (bs[2] - 0x80) * 64 + (bs[3] - 0x80)
  }

  lemma DecodeEncodeChar(c: char)
    ensures DecodeChar(EncodeChar(c)) == c as int
  {
    var n := c as int;
    if 0x800 <= n < 0x1_0000 {
      assert n == (n / 4096) * 4096 + ((n / 64) % 64) * 64 + n % 64;
    } else if 0x1_0000 <= n {
      assert n / 64 == (n / 4096) * 64 + (n / 64) % 64;
      assert n / 4096 == (n / 262144) * 64 + (n / 4096) % 64;
      assert n == (n / 262144) * 262144 + ((n / 4096) % 64) * 4096 + ((n / 64) % 64) * 64 + n % 64;
    }
  }

  /** The scalar value is recovered from its bytes. */
  lemma EncodeCharInjective(c: char, d: char)
    requires EncodeChar(c) == EncodeChar(d)
    ensures c == d
  {
    DecodeEncodeChar(c);
    DecodeEncodeChar(d);
  }

  /** Two strings with the same UTF-8 bytes are the same string: comparing bytes compares text. */
  lemma {:induction false} EncodeInjective(s: string, t: string)
    requires Encode(s) == Encode(t)
    ensures s == t
  {
    if s != [] && t != [] {
      var a, b := EncodeChar(s[0]), EncodeChar(t[0]);
      var e := Encode(s);
      assert e[0] == a[0] == b[0];
      assert |a| == |b|;
      assert a == e[..|a|] == b;
      EncodeCharInjective(s[0], t[0]);
      assert Encode(s[1..]) == e[|a|..] == Encode(t[1..]);
      EncodeInjective(s[1..], t[1..]);
      assert s == [s[0]] + s[1..];
      assert t == [t[0]] + t[1..];
    }
  }
}
