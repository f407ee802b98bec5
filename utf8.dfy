/** UTF-8 (RFC 3629) and percent-decoding (RFC 3986 section 2.1) as the
    `urlencoding` crate's `decode` applies them: the text's UTF-8 bytes are
    percent-decoded, and the resulting bytes must be valid UTF-8 again. */
module Utf8 {
  import opened Wrappers

  type Byte = b: int | 0 <= b < 256

  /** The UTF-8 encoding of one Unicode scalar value. */
  function EncodeChar(c: char): (r: seq<Byte>)
    ensures 1 <= |r| <= 4
    ensures (c as int < 0x80) <==> |r| == 1
    ensures |r| == 1 ==> r[0] == c as int
    ensures |r| > 1 ==> forall k :: 0 <= k < |r| ==> r[k] >= 0x80
  {
    var n := c as int;
    if n < 0x80 then [n]
    else if n < 0x800 then [0xC0 + n / 64, 0x80 + n % 64]
    else if n < 0x10000 then [0xE0 + n / 4096, 0x80 + (n / 64) % 64, 0x80 + n % 64]
    else [0xF0 + n / 262144, 0x80 + (n / 4096) % 64, 0x80 + (n / 64) % 64, 0x80 + n % 64]
  }

  /** `str::as_bytes` */
  function Encode(s: string): seq<Byte> {
    if s == [] then [] else EncodeChar(s[0]) + Encode(s[1..])
  }

  lemma {:induction false} EncodeAppend(a: string, b: string)
    ensures Encode(a + b) == Encode(a) + Encode(b)
    decreases |a|
  {
    if a != [] {
      assert (a + b)[0] == a[0] && (a + b)[1..] == a[1..] + b;
      EncodeAppend(a[1..], b);
    } else {
      assert a + b == b;
    }
  }

  predicate IsContinuation(b: Byte) {
    0x80 <= b < 0xC0
  }

  /** The first scalar value of `b` and the number of bytes it takes, if
      `b` starts with a well-formed sequence: no overlong form, no surrogate,
      nothing above U+10FFFF. */
  function DecodeFirst(b: seq<Byte>): (r: Option<(char, nat)>)
    requires b != []
    ensures r.Some? ==> 1 <= r.value.1 <= |b|
  {
    var b0 := b[0] as int;
    if b0 < 0x80 then Some((b0 as char, 1))
    else if 0xC2 <= b0 < 0xE0 then
      if |b| >= 2 && IsContinuation(b[1]) then Some((((b0 - 0xC0) * 64 + (b[1] as int - 0x80)) as char, 2))
      else None
    else if 0xE0 <= b0 < 0xF0 then
      if |b| >= 3 && IsContinuation(b[1]) && IsContinuation(b[2])
         && (b0 != 0xE0 || b[1] >= 0xA0) && (b0 != 0xED || b[1] < 0xA0)
      then Some((((b0 - 0xE0) * 4096 + (b[1] as int - 0x80) * 64 + (b[2] as int - 0x80)) as char, 3))
      else None
    else if 0xF0 <= b0 < 0xF5 then
      if |b| >= 4 && IsContinuation(b[1]) && IsContinuation(b[2]) && IsContinuation(b[3])
         && (b0 != 0xF0 || b[1] >= 0x90) && (b0 != 0xF4 || b[1] < 0x90)
      then Some((((b0 - 0xF0) * 262144 + (b[1] as int - 0x80) * 4096 + (b[2] as int - 0x80) * 64
                  + (b[3] as int - 0x80)) as char, 4))
      else None
    else None
  }

  /** `String::from_utf8`: the text the bytes encode, or none when they are
      not valid UTF-8. */
  function Decode(b: seq<Byte>): Option<string>
    decreases |b|
  {
    if b == [] then Some([])
    else match DecodeFirst(b)
      case None => None
      case Some((c, n)) =>
        match Decode(b[n..])
        case None => None
        case Some(s) => Some([c] + s)
  }

  /** Splitting a number into base-64 digits and putting them back together. */
  lemma Base64Digits(n: nat)
    ensures n == (n / 64) * 64 + n % 64
    ensures n / 64 == (n / 4096) * 64 + (n / 64) % 64
    ensures n / 4096 == (n / 262144) * 64 + (n / 4096) % 64
  {
    var q1 := n / 64;
    var q2 := q1 / 64;
    assert q2 == n / 4096;
    assert q2 / 64 == n / 262144;
  }

  lemma DecodeFirstOfEncoded(c: char, rest: seq<Byte>)
    ensures DecodeFirst(EncodeChar(c) + rest) == Some((c, |EncodeChar(c)|))
  {
    var n := c as int;
    var b := EncodeChar(c) + rest;
    Base64Digits(n);
    if n < 0x80 {
    } else if n < 0x800 {
      assert b[0] == 0xC0 + n / 64 && b[1] == 0x80 + n % 64;
    } else if n < 0x10000 {
      assert b[0] == 0xE0 + n / 4096 && b[1] == 0x80 + (n / 64) % 64 && b[2] == 0x80 + n % 64;
    } else {
      assert b[0] == 0xF0 + n / 262144 && b[1] == 0x80 + (n / 4096) % 64
             && b[2] == 0x80 + (n / 64) % 64 && b[3] == 0x80 + n % 64;
    }
  }

  /** Decoding undoes encoding: every text survives the trip through bytes. */
  lemma {:induction false} DecodeEncode(s: string)
    ensures Decode(Encode(s)) == Some(s)
    decreases |s|
  {
    if s != [] {
      var e := EncodeChar(s[0]);
      DecodeFirstOfEncoded(s[0], Encode(s[1..]));
      assert (e + Encode(s[1..]))[|e|..] == Encode(s[1..]);
      DecodeEncode(s[1..]);
      assert [s[0]] + s[1..] == s;
    }
  }

  /** The value of an ASCII hexadecimal digit. */
  function HexValue(b: Byte): (r: Option<nat>)
    ensures r.Some? ==> r.value < 16
  {
    if 0x30 <= b <= 0x39 then Some(b - 0x30)
    else if 0x41 <= b <= 0x46 then Some(b - 0x41 + 10)
    else if 0x61 <= b <= 0x66 then Some(b - 0x61 + 10)
    else None
  }

  const Percent: Byte := 0x25

  /** `urlencoding::decode_binary`: `%` and two hexadecimal digits become the
      byte they denote; any other `%` is kept as it is. */
  function PercentDecode(b: seq<Byte>): (r: seq<Byte>)
    ensures |r| <= |b|
    decreases |b|
  {
    if b == [] then []
    else if b[0] == Percent && |b| >= 3 && HexValue(b[1]).Some? && HexValue(b[2]).Some? then
      [16 * HexValue(b[1]).value + HexValue(b[2]).value] + PercentDecode(b[3..])
    else [b[0]] + PercentDecode(b[1..])
  }

  /** Bytes before the first `%` pass through unchanged. */
  lemma {:induction false} PercentDecodePlain(a: seq<Byte>, rest: seq<Byte>)
    requires Percent !in a
    ensures PercentDecode(a + rest) == a + PercentDecode(rest)
    decreases |a|
  {
    if a != [] {
      assert (a + rest)[1..] == a[1..] + rest;
      PercentDecodePlain(a[1..], rest);
    } else {
      assert a + rest == rest;
    }
  }

  /** `urlencoding::decode`: the text's bytes percent-decoded, then read back
      as UTF-8. */
  function UrlDecode(s: string): Option<string> {
    Decode(PercentDecode(Encode(s)))
  }

  /** A text without `%` decodes to itself. */
  lemma UrlDecodeWithoutPercent(s: string)
    requires '%' !in s
    ensures UrlDecode(s) == Some(s)
  {
    NoPercentByte(s);
    PercentDecodePlain(Encode(s), []);
    assert Encode(s) + [] == Encode(s);
    DecodeEncode(s);
  }

  lemma {:induction false} NoPercentByte(s: string)
    requires '%' !in s
    ensures Percent !in Encode(s)
    decreases |s|
  {
    if s != [] {
      assert s[0] != '%';
      NoPercentByte(s[1..]);
    }
  }
}
