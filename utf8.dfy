/** UTF-8 validation and decoding of a byte slice into a string (`std::str::from_utf8`),
    following the well-formed byte sequences of section 4 of RFC 3629. */
module Utf8 {
  import opened Wrappers
  import opened Bytes

  predicate IsContinuation(b: Byte) {
    0x80 <= b <= 0xBF
  }

  /** The second byte of a three-byte sequence: no overlong forms, no surrogates. */
  predicate SecondOfThree(b0: Byte, b1: Byte) {
    if b0 == 0xE0 then 0xA0 <= b1 <= 0xBF
    else if b0 == 0xED then 0x80 <= b1 <= 0x9F
    else IsContinuation(b1)
  }

  /** The second byte of a four-byte sequence: no overlong forms, nothing above U+10FFFF. */
  predicate SecondOfFour(b0: Byte, b1: Byte) {
    if b0 == 0xF0 then 0x90 <= b1 <= 0xBF
    else if b0 == 0xF4 then 0x80 <= b1 <= 0x8F
    else IsContinuation(b1)
  }

  /** The first character of `bs` and the number of bytes it takes, if they are well formed. */
  function DecodeFirst(bs: seq<Byte>): (r: Option<(char, nat)>)
    requires |bs| > 0
    ensures r.Some? ==> 1 <= r.value.1 <= 4 && r.value.1 <= |bs|
  {
    var b0: int := bs[0];
    if b0 < 0x80 then Some((b0 as char, 1))
    else if 0xC2 <= b0 <= 0xDF then
      if |bs| >= 2 && IsContinuation(bs[1]) then
        Some((((b0 - 0xC0) * 64 + Low(bs[1])) as char, 2))
      else None
    else if 0xE0 <= b0 <= 0xEF then
      if |bs| >= 3 && SecondOfThree(b0, bs[1]) && IsContinuation(bs[2]) then
        Some((((b0 - 0xE0) * 4096 + Low(bs[1]) * 64 + Low(bs[2])) as char, 3))
      else None
    else if 0xF0 <= b0 <= 0xF4 then
      if |bs| >= 4 && SecondOfFour(b0, bs[1]) && IsContinuation(bs[2]) && IsContinuation(bs[3]) then
        Some((((b0 - 0xF0) * 262144 + Low(bs[1]) * 4096 + Low(bs[2]) * 64 + Low(bs[3])) as char, 4))
      else None
    else None
  }

  /** The six payload bits of a continuation byte. */
  function Low(b: Byte): int
  {
    b as int - 0x80
  }

  /** The string `bs` encodes, or `None` when `bs` is not valid UTF-8. */
  function Decode(bs: seq<Byte>): (r: Option<string>)
    ensures r.Some? ==> |r.value| <= |bs|
    decreases |bs|
  {
    if bs == [] then Some([])
    else match DecodeFirst(bs)
      case None => None
      case Some(first) =>
        match Decode(bs[first.1..])
        case None => None
        case Some(rest) => Some([first.0] + rest)
  }

  /** The UTF-8 encoding of one character: the shortest form. */
  function EncodeChar(c: char): (bs: seq<Byte>)
    ensures 1 <= |bs| <= 4
  {
    var v := c as int;
    if v < 0x80 then [v]
    else if v < 0x800 then [0xC0 + v / 64, 0x80 + v % 64]
    else if v < 0x1_0000 then [0xE0 + v / 4096, 0x80 + (v / 64) % 64, 0x80 + v % 64]
    else [0xF0 + v / 262144, 0x80 + (v / 4096) % 64, 0x80 + (v / 64) % 64, 0x80 + v % 64]
  }

  function Encode(s: string): seq<Byte>
  {
    if s == [] then [] else EncodeChar(s[0]) + Encode(s[1..])
  }

  /** The encoding of a character is read back as that character, whatever follows it. */
  lemma DecodeFirstOfEncoding(c: char, rest: seq<Byte>)
    ensures DecodeFirst(EncodeChar(c) + rest) == Some((c, |EncodeChar(c)|))
  {
    var v := c as int;
    if v < 0x80 {
    } else if v < 0x800 {
      DecodeTwoOfEncoding(c, rest);
    } else if v < 0x1_0000 {
      DecodeThreeOfEncoding(c, rest);
    } else {
      DecodeFourOfEncoding(c, rest);
    }
  }

  lemma DecodeTwoOfEncoding(c: char, rest: seq<Byte>)
    requires 0x80 <= c as int < 0x800
    ensures DecodeFirst(EncodeChar(c) + rest) == Some((c, 2))
  {
    var v := c as int;
    var bs := EncodeChar(c) + rest;
    var hi, lo := v / 64, v % 64;
    assert v == hi * 64 + lo && 2 <= hi < 32;
    assert bs[0] == 0xC0 + hi && bs[1] == 0x80 + lo;
  }

  lemma DecodeThreeOfEncoding(c: char, rest: seq<Byte>)
    requires 0x800 <= c as int < 0x1_0000
    ensures DecodeFirst(EncodeChar(c) + rest) == Some((c, 3))
  {
    var v := c as int;
    var bs := EncodeChar(c) + rest;
    var q, lo := v / 64, v % 64;
    var hi, mid := q / 64, q % 64;
    assert v == q * 64 + lo;
    assert q == hi * 64 + mid;
    assert v == hi * 4096 + mid * 64 + lo;
    assert v / 4096 == hi;
    assert bs[0] == 0xE0 + hi && bs[1] == 0x80 + mid && bs[2] == 0x80 + lo;
    assert hi == 0 ==> mid >= 32;
    assert hi == 13 ==> mid < 32;
  }

  lemma DecodeFourOfEncoding(c: char, rest: seq<Byte>)
    requires 0x1_0000 <= c as int
    ensures DecodeFirst(EncodeChar(c) + rest) == Some((c, 4))
  {
    var v := c as int;
    var bs := EncodeChar(c) + rest;
    var q, lo := v / 64, v % 64;
    var q2, mid := q / 64, q % 64;
    var hi, top := q2 / 64, q2 % 64;
    assert v == q * 64 + lo;
    assert q == q2 * 64 + mid;
    assert q2 == hi * 64 + top;
    assert v == hi * 262144 + top * 4096 + mid * 64 + lo;
    assert v / 4096 == q2;
    assert v / 262144 == hi;
    assert bs[0] == 0xF0 + hi && bs[1] == 0x80 + top && bs[2] == 0x80 + mid && bs[3] == 0x80 + lo;
    assert hi == 0 ==> top >= 16;
    assert hi == 4 ==> top < 16;
  }

  /** A well-formed first character is encoded by exactly the bytes it was read from. */
  lemma EncodingOfDecodeFirst(bs: seq<Byte>)
    requires |bs| > 0 && DecodeFirst(bs).Some?
    ensures EncodeChar(DecodeFirst(bs).value.0) == bs[..DecodeFirst(bs).value.1]
  {
    var b0: int := bs[0];
    if b0 < 0x80 {
    } else if 0xC2 <= b0 <= 0xDF {
      var v := (b0 - 0xC0) * 64 + Low(bs[1]);
      assert v / 64 == b0 - 0xC0 && v % 64 == Low(bs[1]);
    } else if 0xE0 <= b0 <= 0xEF {
      var q := (b0 - 0xE0) * 64 + Low(bs[1]);
      var v := q * 64 + Low(bs[2]);
      assert v == (b0 - 0xE0) * 4096 + Low(bs[1]) * 64 + Low(bs[2]);
      assert v / 64 == q && v % 64 == Low(bs[2]);
      assert q / 64 == b0 - 0xE0 && q % 64 == Low(bs[1]);
      assert v / 4096 == q / 64;
    } else {
      var q2 := (b0 - 0xF0) * 64 + Low(bs[1]);
      var q := q2 * 64 + Low(bs[2]);
      var v := q * 64 + Low(bs[3]);
      assert v == (b0 - 0xF0) * 262144 + Low(bs[1]) * 4096 + Low(bs[2]) * 64 + Low(bs[3]);
      assert v / 64 == q && v % 64 == Low(bs[3]);
      assert q / 64 == q2 && q % 64 == Low(bs[2]);
      assert q2 / 64 == b0 - 0xF0 && q2 % 64 == Low(bs[1]);
      assert v / 4096 == q2;
      assert v / 262144 == q2 / 64;
    }
  }

  /** Decoding an encoding gives the string back. */
  lemma {:induction false} DecodeEncode(s: string)
    ensures Decode(Encode(s)) == Some(s)
    decreases |s|
  {
    if s != [] {
      var head := EncodeChar(s[0]);
      DecodeFirstOfEncoding(s[0], Encode(s[1..]));
      assert (head + Encode(s[1..]))[|head|..] == Encode(s[1..]);
      DecodeEncode(s[1..]);
      assert [s[0]] + s[1..] == s;
    }
  }

  /** A byte sequence that decodes is the encoding of what it decodes to: valid UTF-8 has
      exactly one reading, and `Encode` and `Decode` are inverse on it. */
  lemma {:induction false} EncodeDecode(bs: seq<Byte>)
    requires Decode(bs).Some?
    ensures Encode(Decode(bs).value) == bs
    decreases |bs|
  {
    if bs != [] {
      var first := DecodeFirst(bs).value;
      EncodingOfDecodeFirst(bs);
      EncodeDecode(bs[first.1..]);
      var s := Decode(bs).value;
      assert s[0] == first.0 && s[1..] == Decode(bs[first.1..]).value;
      assert bs[..first.1] + bs[first.1..] == bs;
    }
  }
}
