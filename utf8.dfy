/**
 * UTF-8 as the Base64 tool uses it: `unescape(encodeURIComponent(text))`
 * yields the UTF-8 bytes of the text, and `decodeURIComponent(escape(bytes))`
 * reads them back, refusing anything that is not well-formed UTF-8
 * (overlong forms, surrogates, code points above U+10FFFF, stray or missing
 * continuation bytes), as section 3 of RFC 3629 defines it.
 */
module Utf8 {
  import opened Common

  type byte = x: int | 0 <= x < 256

  predicate IsContinuation(b: byte) {
    0x80 <= b < 0xC0
  }

  /** The one to four bytes of a scalar value. */
  function EncodeChar(c: char): (r: seq<byte>)
    ensures 1 <= |r| <= 4
  {
    var v := c as int;
    if v < 0x80 then [v]
    else if v < 0x800 then [0xC0 + v / 64, 0x80 + v % 64]
    else if v < 0x10000 then [0xE0 + v / 4096, 0x80 + (v / 64) % 64, 0x80 + v % 64]
    else [0xF0 + v / 262144, 0x80 + (v / 4096) % 64, 0x80 + (v / 64) % 64, 0x80 + v % 64]
  }

  function Encode(s: string): (r: seq<byte>)
    ensures |r| >= |s|
    decreases |s|
  {
    if s == [] then [] else EncodeChar(s[0]) + Encode(s[1..])
  }

  /** A scalar value, as a `char` when it is one. */
  function ScalarChar(v: int): Option<char> {
    if 0 <= v < 0xD800 || 0xE000 <= v < 0x11_0000 then Some(v as char) else None
  }

  /** Reads the first encoded character and how many bytes it took. */
  function DecodeFirst(bs: seq<byte>): (r: Option<(char, nat)>)
    requires bs != []
    ensures r.Some? ==> 1 <= r.value.1 <= |bs|
  {
    var b0: int := bs[0];
    if b0 < 0x80 then Some((b0 as char, 1))
    else if 0xC2 <= b0 < 0xE0 then
      if |bs| >= 2 && IsContinuation(bs[1]) then
        Some((((b0 - 0xC0) * 64 + (bs[1] as int - 0x80)) as char, 2))
      else None
    else if 0xE0 <= b0 < 0xF0 then
      if |bs| >= 3 && IsContinuation(bs[1]) && IsContinuation(bs[2]) then
        var v := (b0 - 0xE0) * 4096 + (bs[1] as int - 0x80) * 64 + (bs[2] as int - 0x80);
        if v < 0x800 then None
        else match ScalarChar(v)
          case Some(c) => Some((c, 3))
          case None => None
      else None
    else if 0xF0 <= b0 < 0xF5 then
      if |bs| >= 4 && IsContinuation(bs[1]) && IsContinuation(bs[2]) && IsContinuation(bs[3]) then
        var v := (b0 - 0xF0) * 262144 + (bs[1] as int - 0x80) * 4096
                 + (bs[2] as int - 0x80) * 64 + (bs[3] as int - 0x80);
        if v < 0x10000 then None
        else match ScalarChar(v)
          case Some(c) => Some((c, 4))
          case None => None
      else None
    else None
  }

  /** Strict decoding: `None` unless the bytes are well-formed UTF-8. */
  function Decode(bs: seq<byte>): Option<string>
    decreases |bs|
  {
    if bs == [] then Some([])
    else match DecodeFirst(bs)
      case None => None
      case Some((c, n)) =>
        match Decode(bs[n..])
        case None => None
        case Some(rest) => Some([c] + rest)
  }

  lemma DecodeOneByte(c: char, rest: seq<byte>)
    requires c as int < 0x80
    ensures DecodeFirst(EncodeChar(c) + rest) == Some((c, |EncodeChar(c)|))
  {
  }

  lemma DecodeTwoBytes(c: char, rest: seq<byte>)
    requires 0x80 <= c as int < 0x800
    ensures DecodeFirst(EncodeChar(c) + rest) == Some((c, |EncodeChar(c)|))
  {
    var v := c as int;
    var bs := EncodeChar(c) + rest;
    assert bs[0] == 0xC0 + v / 64 && bs[1] == 0x80 + v % 64;
    assert (v / 64) * 64 + v % 64 == v;
  }

  lemma DecodeThreeBytes(c: char, rest: seq<byte>)
    requires 0x800 <= c as int < 0x10000
    ensures DecodeFirst(EncodeChar(c) + rest) == Some((c, |EncodeChar(c)|))
  {
    var v := c as int;
    var bs := EncodeChar(c) + rest;
    assert bs[0] == 0xE0 + v / 4096 && bs[1] == 0x80 + (v / 64) % 64 && bs[2] == 0x80 + v % 64;
    ThreeDigitsSplit(v);
  }

  /** The base-64 digits of a value below 2^16. */
  lemma ThreeDigitsSplit(v: int)
    requires 0 <= v < 0x10000
    ensures v == (v / 4096) * 4096 + ((v / 64) % 64) * 64 + v % 64
  {
    var q := v / 64;
    assert v == q * 64 + v % 64;
    assert q == (q / 64) * 64 + q % 64;
    assert q / 64 == v / 4096;
  }

  /** The base-64 digits of a value below 2^21. */
  lemma FourDigits(v: int)
    requires 0 <= v < 0x20_0000
    ensures v / 262144 < 8
    ensures v == (v / 262144) * 262144 + ((v / 4096) % 64) * 4096 + ((v / 64) % 64) * 64 + v % 64
  {
    var q := v / 64;
    assert v == q * 64 + v % 64;
    var q2 := q / 64;
    assert q == q2 * 64 + q % 64;
    assert q2 == v / 4096;
    assert q2 == (q2 / 64) * 64 + q2 % 64;
    assert q2 / 64 == v / 262144;
  }

  lemma DecodeFourBytes(c: char, rest: seq<byte>)
    requires 0x10000 <= c as int
    ensures DecodeFirst(EncodeChar(c) + rest) == Some((c, |EncodeChar(c)|))
  {
    var v := c as int;
    FourDigits(v);
    var bs := EncodeChar(c) + rest;
    assert bs[0] == 0xF0 + v / 262144 && bs[1] == 0x80 + (v / 4096) % 64;
    assert bs[2] == 0x80 + (v / 64) % 64 && bs[3] == 0x80 + v % 64;
  }

  /** Each character's bytes read back as that character, whatever follows. */
  lemma DecodeEncodeChar(c: char, rest: seq<byte>)
    ensures DecodeFirst(EncodeChar(c) + rest) == Some((c, |EncodeChar(c)|))
  {
    var v := c as int;
    if v < 0x80 {
      DecodeOneByte(c, rest);
    } else if v < 0x800 {
      DecodeTwoBytes(c, rest);
    } else if v < 0x10000 {
      DecodeThreeBytes(c, rest);
    } else {
      DecodeFourBytes(c, rest);
    }
  }

  /** Decoding the UTF-8 bytes of a text gives the text back. */
  lemma {:induction false} DecodeEncode(s: string)
    ensures Decode(Encode(s)) == Some(s)
    decreases |s|
  {
    if s != [] {
      var head := EncodeChar(s[0]);
      var bs := Encode(s);
      assert bs == head + Encode(s[1..]);
      DecodeEncodeChar(s[0], Encode(s[1..]));
      assert bs[|head|..] == Encode(s[1..]);
      DecodeEncode(s[1..]);
      assert [s[0]] + s[1..] == s;
    }
  }

  lemma TwoDigits(x: int, y: int)
    requires 0 <= y < 64
    ensures (x * 64 + y) / 64 == x && (x * 64 + y) % 64 == y
  {
  }

  lemma ThreeDigits(x: int, y: int, z: int)
    requires 0 <= x && 0 <= y < 64 && 0 <= z < 64
    ensures var v := x * 4096 + y * 64 + z;
            v / 4096 == x && (v / 64) % 64 == y && v % 64 == z
  {
    var v := x * 4096 + y * 64 + z;
    TwoDigits(x * 64 + y, z);
    assert v == (x * 64 + y) * 64 + z;
    TwoDigits(x, y);
    assert v / 4096 == (v / 64) / 64;
  }

  lemma FourDigitsOf(x: int, y: int, z: int, w: int)
    requires 0 <= x && 0 <= y < 64 && 0 <= z < 64 && 0 <= w < 64
    ensures var v := x * 262144 + y * 4096 + z * 64 + w;
            v / 262144 == x && (v / 4096) % 64 == y && (v / 64) % 64 == z && v % 64 == w
  {
    var v := x * 262144 + y * 4096 + z * 64 + w;
    ThreeDigits(x * 64 + y, z, w);
    assert v == (x * 64 + y) * 4096 + z * 64 + w;
    TwoDigits(x, y);
    assert v / 262144 == (v / 4096) / 64;
  }

  /** The bytes of a character read by DecodeFirst are the bytes it
      encodes to: a well-formed sequence has one reading. */
  lemma EncodeDecodeFirst(bs: seq<byte>)
    requires bs != [] && DecodeFirst(bs).Some?
    ensures var (c, n) := DecodeFirst(bs).value; EncodeChar(c) == bs[..n]
  {
    var b0: int := bs[0];
    if 0xC2 <= b0 < 0xE0 {
      EncodeDecodeTwo(bs);
    } else if 0xE0 <= b0 < 0xF0 {
      EncodeDecodeThree(bs);
    } else if 0xF0 <= b0 {
      EncodeDecodeFour(bs);
    }
  }

  lemma EncodeDecodeTwo(bs: seq<byte>)
    requires bs != [] && 0xC2 <= bs[0] < 0xE0 && DecodeFirst(bs).Some?
    ensures var (c, n) := DecodeFirst(bs).value; EncodeChar(c) == bs[..n]
  {
    var x: int, y: int := bs[0] as int - 0xC0, bs[1] as int - 0x80;
    TwoDigits(x, y);
    var c := DecodeFirst(bs).value.0;
    assert c as int == x * 64 + y;
    assert bs[..2] == [bs[0], bs[1]];
  }

  lemma EncodeDecodeThree(bs: seq<byte>)
    requires bs != [] && 0xE0 <= bs[0] < 0xF0 && DecodeFirst(bs).Some?
    ensures var (c, n) := DecodeFirst(bs).value; EncodeChar(c) == bs[..n]
  {
    var x: int, y: int, z: int := bs[0] as int - 0xE0, bs[1] as int - 0x80, bs[2] as int - 0x80;
    ThreeDigits(x, y, z);
    var c := DecodeFirst(bs).value.0;
    assert c as int == x * 4096 + y * 64 + z;
    assert bs[..3] == [bs[0], bs[1], bs[2]];
  }

  lemma EncodeDecodeFour(bs: seq<byte>)
    requires bs != [] && 0xF0 <= bs[0] && DecodeFirst(bs).Some?
    ensures var (c, n) := DecodeFirst(bs).value; EncodeChar(c) == bs[..n]
  {
    var x: int, y: int, z: int, w: int := bs[0] as int - 0xF0, bs[1] as int - 0x80, bs[2] as int - 0x80, bs[3] as int - 0x80;
    FourDigitsOf(x, y, z, w);
    var c := DecodeFirst(bs).value.0;
    assert c as int == x * 262144 + y * 4096 + z * 64 + w;
    assert bs[..4] == [bs[0], bs[1], bs[2], bs[3]];
  }

  /** Decoding succeeds only on the UTF-8 bytes of the text it returns. */
  lemma {:induction false} EncodeDecode(bs: seq<byte>, s: string)
    requires Decode(bs) == Some(s)
    ensures Encode(s) == bs
    decreases |bs|
  {
    if bs != [] {
      var c, n, rest := DecodeStep(bs, s);
      EncodeDecode(bs[n..], rest);
      assert s[1..] == rest;
      assert bs == bs[..n] + bs[n..];
    }
  }

  /** A successful decode reads one character from the encoded bytes at the
      front and decodes the rest. */
  lemma DecodeStep(bs: seq<byte>, s: string) returns (c: char, n: nat, rest: string)
    requires bs != [] && Decode(bs) == Some(s)
    ensures 1 <= n <= |bs| && EncodeChar(c) == bs[..n]
    ensures Decode(bs[n..]) == Some(rest) && s == [c] + rest
  {
    c, n := DecodeFirst(bs).value.0, DecodeFirst(bs).value.1;
    rest := Decode(bs[n..]).value;
    EncodeDecodeFirst(bs);
  }

  /** The number of bytes a lead byte announces. */
  function SequenceLength(b0: byte): nat {
    if b0 < 0x80 then 1 else if b0 < 0xE0 then 2 else if b0 < 0xF0 then 3 else 4
  }

  /** A continuation byte where a character should start, or one of the
      lead bytes 0xC0 and 0xC1 that could only start an overlong form, is
      refused whatever follows. */
  lemma DecodeRefusesStrayByte(bs: seq<byte>)
    requires bs != [] && 0x80 <= bs[0] < 0xC2
    ensures Decode(bs) == None
  {
    assert DecodeFirst(bs) == None;
  }

  /** A multi-byte lead with fewer bytes after it than it announces is
      refused. */
  lemma DecodeRefusesTruncated(bs: seq<byte>)
    requires bs != [] && 0xC2 <= bs[0] < 0xF5 && |bs| < SequenceLength(bs[0])
    ensures Decode(bs) == None
  {
    assert DecodeFirst(bs) == None;
  }

  /** The three-byte forms of U+D800 to U+DFFF, the UTF-16 surrogates, are
      refused whatever follows. */
  lemma DecodeRefusesSurrogate(b1: byte, b2: byte, rest: seq<byte>)
    requires 0xA0 <= b1 < 0xC0 && IsContinuation(b2)
    ensures Decode([0xED, b1, b2] + rest) == None
  {
    var bs := [0xED, b1, b2] + rest;
    assert bs[0] == 0xED && bs[1] == b1 && bs[2] == b2;
    var v := (0xED - 0xE0) * 4096 + (b1 - 0x80) * 64 + (b2 - 0x80);
    assert 0xD800 <= v < 0xE000;
    assert DecodeFirst(bs) == None;
  }

  /** A three-byte form of a value below U+0800, which fits in two bytes, is
      refused whatever follows. */
  lemma DecodeRefusesOverlong(b1: byte, b2: byte, rest: seq<byte>)
    requires 0x80 <= b1 < 0xA0 && IsContinuation(b2)
    ensures Decode([0xE0, b1, b2] + rest) == None
  {
    var bs := [0xE0, b1, b2] + rest;
    assert bs[0] == 0xE0 && bs[1] == b1 && bs[2] == b2;
    assert DecodeFirst(bs) == None;
  }
}
