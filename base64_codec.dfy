/**
 * The browser's `btoa` and `atob` on byte strings. `btoa` writes the Base64
 * of section 4 of RFC 4648 with `=` padding; `atob` is the forgiving-base64
 * decode of the WHATWG Infra standard: it drops ASCII whitespace, drops one
 * or two `=` from a length that is a multiple of four, refuses a length of
 * the form 4k + 1 and any character outside the alphabet, and ignores the
 * spare bits of a final partial group.
 */
module Base64Codec {
  import opened Common
  import opened Utf8
  import Lists

  predicate IsBase64Char(c: char) {
    ('A' <= c <= 'Z') || ('a' <= c <= 'z') || ('0' <= c <= '9') || c == '+' || c == '/'
  }

  predicate AllBase64(s: string) {
    forall i :: 0 <= i < |s| ==> IsBase64Char(s[i])
  }

  /** Table 1 of RFC 4648: the character for a 6-bit value. */
  function SextetChar(v: nat): (c: char)
    requires v < 64
    ensures IsBase64Char(c)
  {
    if v < 26 then ('A' as int + v) as char
    else if v < 52 then ('a' as int + (v - 26)) as char
    else if v < 62 then ('0' as int + (v - 52)) as char
    else if v == 62 then '+'
    else '/'
  }

  /** The 6-bit value of an alphabet character. */
  function SextetOf(c: char): (v: nat)
    requires IsBase64Char(c)
    ensures v < 64
  {
    if 'A' <= c <= 'Z' then c as int - 'A' as int
    else if 'a' <= c <= 'z' then c as int - 'a' as int + 26
    else if '0' <= c <= '9' then c as int - '0' as int + 52
    else if c == '+' then 62
    else 63
  }

  /** The alphabet is a bijection between 6-bit values and its characters. */
  lemma SextetBijection(v: nat, c: char)
    requires v < 64
    requires IsBase64Char(c)
    ensures SextetOf(SextetChar(v)) == v
    ensures SextetChar(SextetOf(c)) == c
  {
  }

  // ---------------------------------------------------------------------------
  // Bits: three bytes are four sextets

  function Sextet0(b0: byte): nat { b0 / 4 }
  function Sextet1(b0: byte, b1: byte): nat { (b0 % 4) * 16 + b1 / 16 }
  function Sextet2(b1: byte, b2: byte): nat { (b1 % 16) * 4 + b2 / 64 }
  function Sextet3(b2: byte): nat { b2 % 64 }

  function Byte0(s0: nat, s1: nat): byte requires s0 < 64 && s1 < 64 { s0 * 4 + s1 / 16 }
  function Byte1(s1: nat, s2: nat): byte requires s1 < 64 && s2 < 64 { (s1 % 16) * 16 + s2 / 4 }
  function Byte2(s2: nat, s3: nat): byte requires s2 < 64 && s3 < 64 { (s2 % 4) * 64 + s3 }

  lemma SextetsInRange(b0: byte, b1: byte, b2: byte)
    ensures Sextet0(b0) < 64 && Sextet1(b0, b1) < 64 && Sextet2(b1, b2) < 64 && Sextet3(b2) < 64
  {
  }

  lemma ByteFromSextets0(b0: byte, b1: byte)
    ensures Byte0(Sextet0(b0), Sextet1(b0, b1)) == b0
  {
    var x, y := b0 % 4, b1 / 16;
    assert (x * 16 + y) / 16 == x;
  }

  lemma ByteFromSextets1(b0: byte, b1: byte, b2: byte)
    ensures Byte1(Sextet1(b0, b1), Sextet2(b1, b2)) == b1
  {
    var x, y := b0 % 4, b1 / 16;
    assert (x * 16 + y) % 16 == y;
    var z, w := b1 % 16, b2 / 64;
    assert (z * 4 + w) / 4 == z;
  }

  lemma ByteFromSextets2(b1: byte, b2: byte)
    ensures Byte2(Sextet2(b1, b2), Sextet3(b2)) == b2
  {
    var z, w := b1 % 16, b2 / 64;
    assert (z * 4 + w) % 4 == w;
  }

  // ---------------------------------------------------------------------------
  // btoa

  /** Three bytes as four characters. */
  function EncodeGroup(b0: byte, b1: byte, b2: byte): (r: string)
    ensures |r| == 4 && AllBase64(r)
  {
    SextetsInRange(b0, b1, b2);
    [SextetChar(Sextet0(b0)), SextetChar(Sextet1(b0, b1)),
     SextetChar(Sextet2(b1, b2)), SextetChar(Sextet3(b2))]
  }

  /** Four characters per full group, and two or three for a final single
      byte or pair. */
  function UnpaddedLength(n: nat): nat {
    if n == 0 then 0 else if n < 3 then n + 1 else 4 + UnpaddedLength(n - 3)
  }

  /** The characters of the encoding without its padding: a final single byte
      gives two characters, a final pair three. */
  function EncodeUnpadded(bs: seq<byte>): (r: string)
    ensures AllBase64(r)
    ensures |r| == UnpaddedLength(|bs|)
    decreases |bs|
  {
    if |bs| == 0 then ""
    else if |bs| == 1 then
      SextetsInRange(bs[0], 0, 0);
      [SextetChar(Sextet0(bs[0])), SextetChar(Sextet1(bs[0], 0))]
    else if |bs| == 2 then
      SextetsInRange(bs[0], bs[1], 0);
      [SextetChar(Sextet0(bs[0])), SextetChar(Sextet1(bs[0], bs[1])), SextetChar(Sextet2(bs[1], 0))]
    else EncodeGroup(bs[0], bs[1], bs[2]) + EncodeUnpadded(bs[3..])
  }

  function Padding(n: nat): string {
    if n % 3 == 1 then "==" else if n % 3 == 2 then "=" else ""
  }

  /** Four characters per full group of three bytes, and one more than the
      bytes of a final partial group. */
  lemma {:induction false} UnpaddedLengthGroups(n: nat)
    ensures UnpaddedLength(n) == 4 * (n / 3) + (if n % 3 == 0 then 0 else n % 3 + 1)
    decreases n
  {
    if n >= 3 {
      UnpaddedLengthGroups(n - 3);
      assert (n - 3) / 3 == n / 3 - 1;
      assert (n - 3) % 3 == n % 3;
    }
  }

  /** The unpadded length is never of the form 4k + 1, and the padding
      completes it to four characters for every started group of three
      bytes. */
  lemma UnpaddedLengthMod(n: nat)
    ensures UnpaddedLength(n) % 4 == (if n % 3 == 0 then 0 else n % 3 + 1)
    ensures UnpaddedLength(n) + |Padding(n)| == 4 * ((n + 2) / 3)
  {
    UnpaddedLengthGroups(n);
    var q, t := n / 3, n % 3;
    var extra := if t == 0 then 0 else t + 1;
    assert n == 3 * q + t && extra < 4;
    assert (4 * q + extra) % 4 == extra;
    assert (n + 2) / 3 == q + (if t == 0 then 0 else 1);
  }

  /** `btoa` */
  function Btoa(bs: seq<byte>): (r: string)
  {
    EncodeUnpadded(bs) + Padding(|bs|)
  }

  /** Every started group of three bytes takes four characters. */
  lemma BtoaLength(bs: seq<byte>)
    ensures |Btoa(bs)| == 4 * ((|bs| + 2) / 3)
    ensures |Btoa(bs)| % 4 == 0
  {
    UnpaddedLengthMod(|bs|);
    var groups := (|bs| + 2) / 3;
    assert |Btoa(bs)| == |EncodeUnpadded(bs)| + |Padding(|bs|)|;
    assert |Btoa(bs)| == 4 * groups;
    MultipleOfFour(groups);
  }

  lemma MultipleOfFour(g: nat)
    ensures (4 * g) % 4 == 0
  {
  }

  // ---------------------------------------------------------------------------
  // atob

  /** ASCII whitespace of the Infra standard: tab, line feed, form feed,
      carriage return and space. */
  predicate IsAsciiWhitespace(c: char) {
    c == '\t' || c == '\n' || c == '\U{000C}' || c == '\r' || c == ' '
  }

  function StripPadding(t: string): (u: string)
    ensures |u| <= |t| && u == t[..|u|]
    ensures |t| - |u| <= 2 && forall k :: |u| <= k < |t| ==> t[k] == '='
  {
    if |t| % 4 == 0 && |t| >= 2 && t[|t| - 2] == '=' && t[|t| - 1] == '=' then t[..|t| - 2]
    else if |t| % 4 == 0 && |t| >= 1 && t[|t| - 1] == '=' then t[..|t| - 1]
    else t
  }

  /** Four alphabet characters as three bytes. */
  function DecodeGroup(c0: char, c1: char, c2: char, c3: char): seq<byte>
    requires IsBase64Char(c0) && IsBase64Char(c1) && IsBase64Char(c2) && IsBase64Char(c3)
  {
    var s0, s1, s2, s3 := SextetOf(c0), SextetOf(c1), SextetOf(c2), SextetOf(c3);
    [Byte0(s0, s1), Byte1(s1, s2), Byte2(s2, s3)]
  }

  /** The bytes of unpadded alphabet characters; the spare low bits of a
      final group of two or three characters are dropped. */
  function DecodeSextets(u: string): (r: seq<byte>)
    requires AllBase64(u)
    requires |u| % 4 != 1
    decreases |u|
  {
    if |u| == 0 then []
    else if |u| == 2 then [Byte0(SextetOf(u[0]), SextetOf(u[1]))]
    else if |u| == 3 then
      [Byte0(SextetOf(u[0]), SextetOf(u[1])), Byte1(SextetOf(u[1]), SextetOf(u[2]))]
    else DecodeGroup(u[0], u[1], u[2], u[3]) + DecodeSextets(u[4..])
  }

  /** `atob`: `None` where the browser throws `InvalidCharacterError`. */
  function Atob(s: string): (r: Option<seq<byte>>)
    ensures r.None? <==>
              var u := StripPadding(Lists.Filter(s, (c: char) => !IsAsciiWhitespace(c)));
              |u| % 4 == 1 || !AllBase64(u)
  {
    var u := StripPadding(Lists.Filter(s, (c: char) => !IsAsciiWhitespace(c)));
    if |u| % 4 == 1 || !AllBase64(u) then None else Some(DecodeSextets(u))
  }

  // ---------------------------------------------------------------------------
  // Round trip

  lemma DecodeEncodeGroup(b0: byte, b1: byte, b2: byte)
    ensures var g := EncodeGroup(b0, b1, b2);
            DecodeGroup(g[0], g[1], g[2], g[3]) == [b0, b1, b2]
  {
    var g := EncodeGroup(b0, b1, b2);
    SextetsInRange(b0, b1, b2);
    SextetBijection(Sextet0(b0), g[0]);
    SextetBijection(Sextet1(b0, b1), g[1]);
    SextetBijection(Sextet2(b1, b2), g[2]);
    SextetBijection(Sextet3(b2), g[3]);
    ByteFromSextets0(b0, b1);
    ByteFromSextets1(b0, b1, b2);
    ByteFromSextets2(b1, b2);
  }

  lemma DecodeEncodeOne(bs: seq<byte>)
    requires |bs| == 1
    ensures DecodeSextets(EncodeUnpadded(bs)) == bs
  {
    var u := EncodeUnpadded(bs);
    SextetsInRange(bs[0], 0, 0);
    SextetBijection(Sextet0(bs[0]), u[0]);
    SextetBijection(Sextet1(bs[0], 0), u[1]);
    ByteFromSextets0(bs[0], 0);
  }

  lemma DecodeEncodeTwo(bs: seq<byte>)
    requires |bs| == 2
    ensures DecodeSextets(EncodeUnpadded(bs)) == bs
  {
    var u := EncodeUnpadded(bs);
    SextetsInRange(bs[0], bs[1], 0);
    SextetBijection(Sextet0(bs[0]), u[0]);
    SextetBijection(Sextet1(bs[0], bs[1]), u[1]);
    SextetBijection(Sextet2(bs[1], 0), u[2]);
    ByteFromSextets0(bs[0], bs[1]);
    ByteFromSextets1(bs[0], bs[1], 0);
  }

  /** The unpadded characters decode to the bytes they encode. */
  /** Decoding goes group by group. */
  lemma DecodeSextetsCons(g: string, rest: string)
    requires |g| == 4 && AllBase64(g) && AllBase64(rest) && |rest| % 4 != 1
    ensures AllBase64(g + rest)
    ensures DecodeSextets(g + rest) == DecodeGroup(g[0], g[1], g[2], g[3]) + DecodeSextets(rest)
  {
    var u := g + rest;
    assert u[4..] == rest;
    assert u[0] == g[0] && u[1] == g[1] && u[2] == g[2] && u[3] == g[3];
  }

  lemma EncodeUnpaddedCons(bs: seq<byte>)
    requires |bs| >= 3
    ensures EncodeUnpadded(bs) == EncodeGroup(bs[0], bs[1], bs[2]) + EncodeUnpadded(bs[3..])
    ensures UnpaddedLength(|bs|) % 4 != 1 && UnpaddedLength(|bs| - 3) % 4 != 1
  {
    UnpaddedLengthMod(|bs|);
    UnpaddedLengthMod(|bs| - 3);
  }

  lemma FirstThree(bs: seq<byte>)
    requires |bs| >= 3
    ensures bs == [bs[0], bs[1], bs[2]] + bs[3..]
  {
    assert bs[..3] == [bs[0], bs[1], bs[2]];
    assert bs == bs[..3] + bs[3..];
  }

  /** One group in front of a tail that already decodes to its bytes. */
  lemma DecodeEncodeStep(bs: seq<byte>)
    requires |bs| >= 3
    requires UnpaddedLength(|bs| - 3) % 4 != 1
    requires DecodeSextets(EncodeUnpadded(bs[3..])) == bs[3..]
    ensures UnpaddedLength(|bs|) % 4 != 1
    ensures DecodeSextets(EncodeUnpadded(bs)) == bs
  {
    var g := EncodeGroup(bs[0], bs[1], bs[2]);
    var tail := EncodeUnpadded(bs[3..]);
    EncodeUnpaddedCons(bs);
    DecodeSextetsCons(g, tail);
    DecodeEncodeGroup(bs[0], bs[1], bs[2]);
    FirstThree(bs);
  }

  lemma {:induction false} DecodeEncodeUnpadded(bs: seq<byte>)
    ensures UnpaddedLength(|bs|) % 4 != 1
    ensures DecodeSextets(EncodeUnpadded(bs)) == bs
    decreases |bs|
  {
    if |bs| == 0 {
    } else if |bs| == 1 {
      DecodeEncodeOne(bs);
    } else if |bs| == 2 {
      DecodeEncodeTwo(bs);
    } else {
      DecodeEncodeUnpadded(bs[3..]);
      DecodeEncodeStep(bs);
    }
  }

  /** `atob` drops exactly the padding that `btoa` added. */
  lemma StripBtoaPadding(bs: seq<byte>)
    ensures StripPadding(Btoa(bs)) == EncodeUnpadded(bs)
  {
    var u := EncodeUnpadded(bs);
    var t := Btoa(bs);
    BtoaLength(bs);
    assert |t| % 4 == 0;
    if |bs| % 3 == 1 {
      assert t == u + "==";
      assert t[|t| - 2] == '=' && t[|t| - 1] == '=';
      assert t[..|t| - 2] == u;
    } else if |bs| % 3 == 2 {
      assert t == u + "=";
      assert |u| >= 1 && t[|t| - 2] == u[|u| - 1];
      assert IsBase64Char(u[|u| - 1]);
      assert t[..|t| - 1] == u;
    } else {
      assert t == u;
      if |u| > 0 {
        assert IsBase64Char(u[|u| - 1]);
      }
    }
  }

  /** `atob(btoa(b)) == b` for every byte string. */
  lemma AtobBtoa(bs: seq<byte>)
    ensures Atob(Btoa(bs)) == Some(bs)
  {
    var t := Btoa(bs);
    var keep := (c: char) => !IsAsciiWhitespace(c);
    forall i | 0 <= i < |t| ensures keep(t[i]) {
      var u := EncodeUnpadded(bs);
      if i < |u| {
        assert t[i] == u[i];
      }
    }
    Lists.FilterAllKept(t, keep);
    StripBtoaPadding(bs);
    DecodeEncodeUnpadded(bs);
  }

  /** A single character that is not whitespace leaves a length of the form
      4k + 1, which `atob` refuses. */
  lemma AtobRefusesSingle(s: string)
    requires |s| == 1 && !IsAsciiWhitespace(s[0])
    ensures Atob(s) == None
  {
    Lists.FilterAllKept(s, (c: char) => !IsAsciiWhitespace(c));
  }

  /** A character that is neither in the alphabet, nor whitespace, nor `=`
      makes `atob` refuse the text, wherever it stands. */
  lemma AtobRefusesForeign(s: string, i: nat)
    requires i < |s| && !IsBase64Char(s[i]) && !IsAsciiWhitespace(s[i]) && s[i] != '='
    ensures Atob(s) == None
  {
    var keep := (c: char) => !IsAsciiWhitespace(c);
    var t := Lists.Filter(s, keep);
    Lists.FilterMembers(s, keep, s[i]);
    var k :| 0 <= k < |t| && t[k] == s[i];
    var u := StripPadding(t);
    assert k < |u| && u[k] == t[k];
  }
}
