/**
 * Go's `base64.StdEncoding` (the standard alphabet of section 4 of RFC 4648,
 * with `=` padding), as `EncodeToString` and `DecodeString` use it. The
 * decoder is Go's non-strict one: it skips `\r` and `\n` wherever they
 * occur, needs complete padded quanta, and ignores the unused low bits of a
 * final partial quantum.
 */
module Base64 {
  import opened Wrappers
  import opened Utf8

  /** The character for a 6-bit value. */
  function CharOf(v: nat): (c: char)
    requires v < 64
    ensures ValueOf(c) == Some(v)
  {
    if v < 26 then ('A' as int + v) as char
    else if v < 52 then ('a' as int + v - 26) as char
    else if v < 62 then ('0' as int + v - 52) as char
    else if v == 62 then '+' else '/'
  }

  /** The decoding map: the 6-bit value of an alphabet character, `None` for any other. */
  function ValueOf(c: char): (r: Option<nat>)
    ensures r.Some? ==> r.value < 64
  {
    if 'A' <= c <= 'Z' then Some(c as int - 'A' as int)
    else if 'a' <= c <= 'z' then Some(c as int - 'a' as int + 26)
    else if '0' <= c <= '9' then Some(c as int - '0' as int + 52)
    else if c == '+' then Some(62)
    else if c == '/' then Some(63)
    else None
  }

  /** Every alphabet character is the character of its value. */
  lemma CharOfValueOf(c: char)
    requires ValueOf(c).Some?
    ensures CharOf(ValueOf(c).value) == c
  {
  }

  predicate InAlphabet(c: char) {
    ValueOf(c).Some?
  }

  /** The four 6-bit groups of three bytes, most significant first. */
  function Sextets(b0: byte, b1: byte, b2: byte): (v: seq<nat>)
    ensures |v| == 4 && v[0] < 64 && v[1] < 64 && v[2] < 64 && v[3] < 64
    ensures Bytes(v[0], v[1], v[2], v[3]) == [b0, b1, b2]
  {
    SextetsInvert(b0, b1, b2);
    [b0 / 4, b0 % 4 * 16 + b1 / 16, b1 % 16 * 4 + b2 / 64, b2 % 64]
  }

  /** The arithmetic behind `Sextets`: the groups put back together give the three bytes. */
  lemma SextetsInvert(b0: byte, b1: byte, b2: byte)
    ensures var v1, v2 := b0 % 4 * 16 + b1 / 16, b1 % 16 * 4 + b2 / 64;
      && b0 / 4 < 64 && v1 < 64 && v2 < 64
      && b0 / 4 * 4 + v1 / 16 == b0
      && v1 % 16 * 16 + v2 / 4 == b1
      && v2 % 4 * 64 + b2 % 64 == b2
  {
    var v1, v2 := b0 % 4 * 16 + b1 / 16, b1 % 16 * 4 + b2 / 64;
    assert v1 / 16 == b0 % 4 && v1 % 16 == b1 / 16;
    assert v2 / 4 == b1 % 16 && v2 % 4 == b2 / 64;
  }

  /** `EncodeToString`: every three bytes become four characters, the last group padded with `=`. */
  function Encode(bs: seq<byte>): (s: string)
    ensures forall i :: 0 <= i < |s| ==> InAlphabet(s[i]) || s[i] == '='
  {
    if bs == [] then []
    else if |bs| == 1 then
      var v := Sextets(bs[0], 0, 0);
      [CharOf(v[0]), CharOf(v[1]), '=', '=']
    else if |bs| == 2 then
      var v := Sextets(bs[0], bs[1], 0);
      [CharOf(v[0]), CharOf(v[1]), CharOf(v[2]), '=']
    else
      var v := Sextets(bs[0], bs[1], bs[2]);
      [CharOf(v[0]), CharOf(v[1]), CharOf(v[2]), CharOf(v[3])] + Encode(bs[3..])
  }

  /** The text the decoder actually reads: the input without carriage returns and line feeds. */
  function StripNewlines(s: string): (r: string)
    ensures |r| <= |s|
    ensures forall i :: 0 <= i < |r| ==> r[i] != '\r' && r[i] != '\n'
  {
    if s == [] then []
    else if s[0] == '\r' || s[0] == '\n' then StripNewlines(s[1..])
    else [s[0]] + StripNewlines(s[1..])
  }

  /** The three bytes four 6-bit values stand for. */
  function Bytes(v0: nat, v1: nat, v2: nat, v3: nat): (r: seq<byte>)
    requires v0 < 64 && v1 < 64 && v2 < 64 && v3 < 64
    ensures |r| == 3
  {
    [v0 * 4 + v1 / 16, v1 % 16 * 16 + v2 / 4, v2 % 4 * 64 + v3]
  }

  /**
   * Decoding of newline-free text quantum by quantum: four alphabet characters
   * give three bytes; only the last quantum may end in `x=` (two bytes) or
   * `==` (one byte); a short quantum, a misplaced `=` or a foreign character
   * is corrupt input.
   */
  function DecodeQuanta(q: string): (r: Result<seq<byte>, string>)
    ensures r.Ok? ==> |q| % 4 == 0
    decreases |q|
  {
    if q == [] then Ok([])
    else if |q| < 4 then Err("illegal base64 data: incomplete quantum")
    else
      var a, b, c, d := ValueOf(q[0]), ValueOf(q[1]), ValueOf(q[2]), ValueOf(q[3]);
      if a.None? || b.None? then Err("illegal base64 data: bad character")
      else if c.Some? && d.Some? then
        match DecodeQuanta(q[4..])
        case Err(e) => Err(e)
        case Ok(rest) =>
          QuantumStep(|q|);
          Ok(Bytes(a.value, b.value, c.value, d.value) + rest)
      else if |q| == 4 && c.None? && q[2] == '=' && q[3] == '=' then
        Ok(Bytes(a.value, b.value, 0, 0)[..1])
      else if |q| == 4 && c.Some? && q[3] == '=' then
        Ok(Bytes(a.value, b.value, c.value, 0)[..2])
      else Err("illegal base64 data: bad padding")
  }

  /** Taking off one quantum keeps the length's remainder modulo four. */
  lemma QuantumStep(n: int)
    requires n >= 4
    ensures n % 4 == (n - 4) % 4
  {
  }

  /** `DecodeString`. */
  function Decode(s: string): (r: Result<seq<byte>, string>)
    ensures r.Ok? ==> |StripNewlines(s)| % 4 == 0
  {
    DecodeQuanta(StripNewlines(s))
  }

  /** Four characters for every three bytes, rounded up. */
  lemma {:induction false} EncodeLength(bs: seq<byte>)
    ensures |Encode(bs)| == (|bs| + 2) / 3 * 4
    decreases |bs|
  {
    if 1 <= |bs| <= 2 {
      assert |Encode(bs)| == 4;
    } else if |bs| >= 3 {
      assert |Encode(bs)| == 4 + |Encode(bs[3..])| by {
        var v := Sextets(bs[0], bs[1], bs[2]);
        assert Encode(bs) == [CharOf(v[0]), CharOf(v[1]), CharOf(v[2]), CharOf(v[3])] + Encode(bs[3..]);
      }
      EncodeLength(bs[3..]);
      QuantumCount(|bs|);
    }
  }

  /** One more group of three bytes is one more quantum of four characters. */
  lemma QuantumCount(n: nat)
    requires n >= 3
    ensures (n + 2) / 3 * 4 == (n - 3 + 2) / 3 * 4 + 4
  {
  }

  lemma DecodePaddedTwice(v0: nat, v1: nat)
    requires v0 < 64 && v1 < 64
    ensures DecodeQuanta([CharOf(v0), CharOf(v1), '=', '=']) == Ok(Bytes(v0, v1, 0, 0)[..1])
  {
  }

  lemma DecodePaddedOnce(v0: nat, v1: nat, v2: nat)
    requires v0 < 64 && v1 < 64 && v2 < 64
    ensures DecodeQuanta([CharOf(v0), CharOf(v1), CharOf(v2), '=']) == Ok(Bytes(v0, v1, v2, 0)[..2])
  {
  }

  lemma DecodeFullQuantum(v0: nat, v1: nat, v2: nat, v3: nat, rest: string, tail: seq<byte>)
    requires v0 < 64 && v1 < 64 && v2 < 64 && v3 < 64
    requires DecodeQuanta(rest) == Ok(tail)
    ensures DecodeQuanta([CharOf(v0), CharOf(v1), CharOf(v2), CharOf(v3)] + rest)
      == Ok(Bytes(v0, v1, v2, v3) + tail)
  {
    var q := [CharOf(v0), CharOf(v1), CharOf(v2), CharOf(v3)] + rest;
    assert q[4..] == rest;
  }

  lemma EncodeOneShape(bs: seq<byte>)
    requires |bs| == 1
    ensures var v := Sextets(bs[0], 0, 0);
      && Encode(bs) == [CharOf(v[0]), CharOf(v[1]), '=', '=']
      && Bytes(v[0], v[1], 0, 0)[..1] == bs
  {
  }

  lemma EncodeTwoShape(bs: seq<byte>)
    requires |bs| == 2
    ensures var v := Sextets(bs[0], bs[1], 0);
      && Encode(bs) == [CharOf(v[0]), CharOf(v[1]), CharOf(v[2]), '=']
      && Bytes(v[0], v[1], v[2], 0)[..2] == bs
  {
    var v := Sextets(bs[0], bs[1], 0);
    assert v[3] == 0;
    assert Bytes(v[0], v[1], v[2], 0) == [bs[0], bs[1], 0];
  }

  /** Three or more bytes: one full quantum, then the encoding of the rest. */
  lemma EncodeThreeShape(bs: seq<byte>)
    requires |bs| >= 3
    ensures var v := Sextets(bs[0], bs[1], bs[2]);
      && Encode(bs) == [CharOf(v[0]), CharOf(v[1]), CharOf(v[2]), CharOf(v[3])] + Encode(bs[3..])
      && Bytes(v[0], v[1], v[2], v[3]) + bs[3..] == bs
  {
    var v := Sextets(bs[0], bs[1], bs[2]);
    assert Bytes(v[0], v[1], v[2], v[3]) == [bs[0], bs[1], bs[2]];
    SplitThree(bs);
  }

  /** A sequence of three or more is its first three elements followed by the rest. */
  lemma SplitThree<T>(s: seq<T>)
    requires |s| >= 3
    ensures s == [s[0], s[1], s[2]] + s[3..]
  {
    assert s[..3] == [s[0], s[1], s[2]];
    assert s == s[..3] + s[3..];
  }

  /** The final quantum of a one-byte tail. */
  lemma DecodeEncodeOne(bs: seq<byte>)
    requires |bs| == 1
    ensures DecodeQuanta(Encode(bs)) == Ok(bs)
  {
    var v := Sextets(bs[0], 0, 0);
    EncodeOneShape(bs);
    DecodePaddedTwice(v[0], v[1]);
  }

  /** The final quantum of a two-byte tail. */
  lemma DecodeEncodeTwo(bs: seq<byte>)
    requires |bs| == 2
    ensures DecodeQuanta(Encode(bs)) == Ok(bs)
  {
    var v := Sextets(bs[0], bs[1], 0);
    EncodeTwoShape(bs);
    DecodePaddedOnce(v[0], v[1], v[2]);
  }

  /** Decoding undoes encoding, for every byte string. */
  lemma {:induction false} DecodeQuantaEncode(bs: seq<byte>)
    ensures DecodeQuanta(Encode(bs)) == Ok(bs)
    decreases |bs|
  {
    if |bs| == 1 {
      DecodeEncodeOne(bs);
    } else if |bs| == 2 {
      DecodeEncodeTwo(bs);
    } else if |bs| >= 3 {
      var v := Sextets(bs[0], bs[1], bs[2]);
      EncodeThreeShape(bs);
      DecodeQuantaEncode(bs[3..]);
      DecodeFullQuantum(v[0], v[1], v[2], v[3], Encode(bs[3..]), bs[3..]);
    }
  }

  /** Encoded text holds no newlines, so the decoder reads it whole. */
  lemma StripEncode(bs: seq<byte>)
    ensures StripNewlines(Encode(bs)) == Encode(bs)
  {
    var s := Encode(bs);
    StripFree(s);
  }

  lemma {:induction false} StripFree(s: string)
    requires forall i :: 0 <= i < |s| ==> s[i] != '\r' && s[i] != '\n'
    ensures StripNewlines(s) == s
  {
    if s != [] {
      StripFree(s[1..]);
      assert s == [s[0]] + s[1..];
    }
  }

  /** Round trip of section 4 of RFC 4648: `DecodeString(EncodeToString(b)) == b`. */
  lemma DecodeEncode(bs: seq<byte>)
    ensures Decode(Encode(bs)) == Ok(bs)
  {
    StripEncode(bs);
    DecodeQuantaEncode(bs);
  }

  /** Line breaks anywhere in the input do not change what is decoded. */
  lemma DecodeIgnoresNewline(a: string, b: string, nl: char)
    requires nl == '\r' || nl == '\n'
    ensures Decode(a + [nl] + b) == Decode(a + b)
  {
    StripAppend(a, [nl] + b);
    StripAppend(a, b);
    assert a + [nl] + b == a + ([nl] + b);
    assert StripNewlines([nl] + b) == StripNewlines(b);
  }

  lemma {:induction false} StripAppend(a: string, b: string)
    ensures StripNewlines(a + b) == StripNewlines(a) + StripNewlines(b)
  {
    if a != [] {
      StripAppend(a[1..], b);
      assert (a + b)[0] == a[0];
      assert (a + b)[1..] == a[1..] + b;
      if a[0] != '\r' && a[0] != '\n' {
        assert StripNewlines(a + b) == [a[0]] + (StripNewlines(a[1..]) + StripNewlines(b));
      }
    } else {
      assert a + b == b;
    }
  }
}
