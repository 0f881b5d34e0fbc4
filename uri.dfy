/**
 * `encodeURIComponent` as the ECMAScript language specification defines it:
 * every code point outside the unreserved set is written as its UTF-8 bytes
 * (RFC 3629), each as "%" and two upper-case hexadecimal digits. Its partner
 * is `decodeURIComponent`, which reads the bytes back and refuses malformed UTF-8.
 */
module Uri {
  import opened Util
  import opened JsText

  /** The characters `encodeURIComponent` leaves as they are. */
  predicate IsUnreserved(c: char) {
    || ('A' <= c <= 'Z') || ('a' <= c <= 'z') || ('0' <= c <= '9')
    || c == '-' || c == '_' || c == '.' || c == '!' || c == '~' || c == '*' || c == '\'' || c == '(' || c == ')'
  }

  // ---------------------------------------------------------------------------
  // UTF-8
  // ---------------------------------------------------------------------------

  /** The UTF-8 encoding of one code point: one to four bytes. */
  function Utf8(c: char): (bs: seq<byte>)
    ensures 1 <= |bs| <= 4
  {
    var n := c as int;
    if n < 0x80 then [n as byte]
    else if n < 0x800 then [(0xC0 + n / 64) as byte, (0x80 + n % 64) as byte]
    else if n < 0x10000 then [(0xE0 + n / 4096) as byte, (0x80 + n / 64 % 64) as byte, (0x80 + n % 64) as byte]
    else [(0xF0 + n / 262144) as byte, (0x80 + n / 4096 % 64) as byte, (0x80 + n / 64 % 64) as byte, (0x80 + n % 64) as byte]
  }

  /** How many bytes a sequence that starts with `b0` has; 0 when `b0` cannot start one. */
  function Utf8Length(b0: byte): nat {
    if b0 < 0x80 then 1
    else if 0xC0 <= b0 < 0xE0 then 2
    else if 0xE0 <= b0 < 0xF0 then 3
    else if 0xF0 <= b0 < 0xF8 then 4
    else 0
  }

  predicate IsContinuation(b: byte) { 0x80 <= b < 0xC0 }

  /** The code point `v` if it is one a string may hold: not a surrogate, not beyond U+10FFFF. */
  function Scalar(v: int): (r: Option<char>)
    ensures r.Some? ==> r.value as int == v
  {
    if 0 <= v < 0xD800 || 0xE000 <= v <= 0x10FFFF then Some(v as char) else None
  }

  /** One UTF-8 sequence read back as a code point; overlong forms and surrogates are refused. */
  function DecodeUtf8(bs: seq<byte>): Option<char> {
    if |bs| == 1 && bs[0] < 0x80 then Some(bs[0] as int as char)
    else if |bs| == 2 && Utf8Length(bs[0]) == 2 && IsContinuation(bs[1]) then
      var v := (bs[0] as int - 0xC0) * 64 + (bs[1] as int - 0x80);
      if v < 0x80 then None else Scalar(v)
    else if |bs| == 3 && Utf8Length(bs[0]) == 3 && IsContinuation(bs[1]) && IsContinuation(bs[2]) then
      var v := ((bs[0] as int - 0xE0) * 64 + (bs[1] as int - 0x80)) * 64 + (bs[2] as int - 0x80);
      if v < 0x800 then None else Scalar(v)
    else if |bs| == 4 && Utf8Length(bs[0]) == 4 && IsContinuation(bs[1]) && IsContinuation(bs[2]) && IsContinuation(bs[3]) then
      var v := (((bs[0] as int - 0xF0) * 64 + (bs[1] as int - 0x80)) * 64 + (bs[2] as int - 0x80)) * 64 + (bs[3] as int - 0x80);
      if v < 0x10000 then None else Scalar(v)
    else None
  }

  /** Reading a code point's encoding gives the code point back, and its first byte announces its length. */
  lemma Utf8Decodes(c: char)
    ensures Utf8Length(Utf8(c)[0]) == |Utf8(c)|
    ensures DecodeUtf8(Utf8(c)) == Some(c)
  {
    var n := c as int;
    if n < 0x80 {
    } else if n < 0x800 {
      Utf8Decodes2(c);
    } else if n < 0x10000 {
      Utf8Decodes3(c);
    } else {
      Utf8Decodes4(c);
    }
  }

  lemma Utf8Decodes2(c: char)
    requires 0x80 <= c as int < 0x800
    ensures Utf8Length(Utf8(c)[0]) == 2 && DecodeUtf8(Utf8(c)) == Some(c)
  {
    var n := c as int;
    var a, d := n / 64, n % 64;
    assert n == a * 64 + d;
    assert Utf8(c) == [(0xC0 + a) as byte, (0x80 + d) as byte];
  }

  lemma Utf8Decodes3(c: char)
    requires 0x800 <= c as int < 0x10000
    ensures Utf8Length(Utf8(c)[0]) == 3 && DecodeUtf8(Utf8(c)) == Some(c)
  {
    var n := c as int;
    var a, b, d := n / 4096, n / 64 % 64, n % 64;
    assert n / 64 == a * 64 + b;
    assert n == (a * 64 + b) * 64 + d;
    assert Utf8(c) == [(0xE0 + a) as byte, (0x80 + b) as byte, (0x80 + d) as byte];
  }

  lemma Utf8Decodes4(c: char)
    requires 0x10000 <= c as int
    ensures Utf8Length(Utf8(c)[0]) == 4 && DecodeUtf8(Utf8(c)) == Some(c)
  {
    var n := c as int;
    var a, b, e, d := n / 262144, n / 4096 % 64, n / 64 % 64, n % 64;
    assert n / 4096 == a * 64 + b;
    assert n / 64 == (a * 64 + b) * 64 + e;
    assert n == ((a * 64 + b) * 64 + e) * 64 + d;
    assert Utf8(c) == [(0xF0 + a) as byte, (0x80 + b) as byte, (0x80 + e) as byte, (0x80 + d) as byte];
  }

  // ---------------------------------------------------------------------------
  // Percent-encoding
  // ---------------------------------------------------------------------------

  /** The upper-case hexadecimal digit for `d`. */
  function HexUpper(d: nat): (c: char)
    requires d < 16
    ensures IsHexDigit(c) && DigitValue(c) == d
  {
    if d < 10 then DecDigit(d) else ('A' as int + d - 10) as char
  }

  /** "%XX" for one byte. */
  function PercentByte(b: byte): (r: string)
    ensures |r| == 3 && r[0] == '%' && IsHexDigit(r[1]) && IsHexDigit(r[2])
    ensures DigitValue(r[1]) * 16 + DigitValue(r[2]) == b as int
  {
    ['%', HexUpper(b as int / 16), HexUpper(b as int % 16)]
  }

  function PercentBytes(bs: seq<byte>): (r: string)
    ensures |r| == 3 * |bs|
  {
    if bs == [] then [] else PercentByte(bs[0]) + PercentBytes(bs[1..])
  }

  /** One code point as `encodeURIComponent` writes it. */
  function EncodeChar(c: char): string {
    if IsUnreserved(c) then [c] else PercentBytes(Utf8(c))
  }

  /** `encodeURIComponent(s)`. */
  function EncodeURIComponent(s: string): (r: string)
    ensures forall k :: 0 <= k < |r| ==> IsUnreserved(r[k]) || r[k] == '%'
  {
    if s == [] then []
    else
      var head, tail := EncodeChar(s[0]), EncodeURIComponent(s[1..]);
      assert forall k :: 0 <= k < |head| ==> IsUnreserved(head[k]) || head[k] == '%' by {
        if !IsUnreserved(s[0]) { PercentBytesSafe(Utf8(s[0])); }
      }
      assert forall k :: 0 <= k < |head + tail| ==> IsUnreserved((head + tail)[k]) || (head + tail)[k] == '%' by {
        forall k | 0 <= k < |head + tail| ensures IsUnreserved((head + tail)[k]) || (head + tail)[k] == '%' {
          if k >= |head| { assert (head + tail)[k] == tail[k - |head|]; }
        }
      }
      head + tail
  }

  /** Percent-encoded bytes are "%" signs and hexadecimal digits, all of them unreserved. */
  lemma {:induction false} PercentBytesSafe(bs: seq<byte>)
    ensures forall k :: 0 <= k < |PercentBytes(bs)| ==> IsUnreserved(PercentBytes(bs)[k]) || PercentBytes(bs)[k] == '%'
  {
    if bs != [] {
      PercentBytesSafe(bs[1..]);
      var r, p := PercentBytes(bs), PercentByte(bs[0]);
      forall k | 0 <= k < |r| ensures IsUnreserved(r[k]) || r[k] == '%' {
        if k >= 3 { assert r[k] == PercentBytes(bs[1..])[k - 3]; }
        else { assert r[k] == p[k]; }
      }
    }
  }

  // ---------------------------------------------------------------------------
  // decodeURIComponent
  // ---------------------------------------------------------------------------

  /** `n` groups "%XX" at the start of `e`, read as bytes. */
  function ReadPercentBytes(e: string, n: nat): (r: Option<seq<byte>>)
    ensures r.Some? ==> |r.value| == n && 3 * n <= |e|
  {
    if n == 0 then Some([])
    else if |e| < 3 || e[0] != '%' || !IsHexDigit(e[1]) || !IsHexDigit(e[2]) then None
    else
      match ReadPercentBytes(e[3..], n - 1)
      case None => None
      case Some(rest) => Some([(DigitValue(e[1]) * 16 + DigitValue(e[2])) as byte] + rest)
  }

  /**
   * `decodeURIComponent(e)`: every "%XX" group that starts a UTF-8 sequence is
   * read with the groups that complete it; other characters are kept. None is
   * the URIError thrown for a malformed escape or malformed UTF-8.
   */
  function DecodeURIComponent(e: string): Option<string>
    decreases |e|
  {
    if e == [] then Some([])
    else if e[0] != '%' then
      match DecodeURIComponent(e[1..])
      case None => None
      case Some(rest) => Some([e[0]] + rest)
    else if |e| < 3 || !IsHexDigit(e[1]) || !IsHexDigit(e[2]) then None
    else
      var n := Utf8Length((DigitValue(e[1]) * 16 + DigitValue(e[2])) as byte);
      if n == 0 then None
      else
        match ReadPercentBytes(e, n)
        case None => None
        case Some(bs) =>
          match DecodeUtf8(bs)
          case None => None
          case Some(c) =>
            match DecodeURIComponent(e[3 * n..])
            case None => None
            case Some(rest) => Some([c] + rest)
  }

  /** Reading back percent-encoded bytes gives the bytes, whatever follows them. */
  lemma {:induction false} ReadPercentBytesOf(bs: seq<byte>, rest: string)
    ensures ReadPercentBytes(PercentBytes(bs) + rest, |bs|) == Some(bs)
  {
    if bs != [] {
      var e := PercentBytes(bs) + rest;
      var p := PercentByte(bs[0]);
      assert e[..3] == p;
      assert e[3..] == PercentBytes(bs[1..]) + rest;
      ReadPercentBytesOf(bs[1..], rest);
      assert bs == [bs[0]] + bs[1..];
    }
  }

  /** Decoding one encoded code point in front of anything gives the code point in front of that thing's decoding. */
  lemma DecodeEncodedChar(c: char, rest: string)
    ensures DecodeURIComponent(EncodeChar(c) + rest) ==
      match DecodeURIComponent(rest)
      case None => None
      case Some(r) => Some([c] + r)
  {
    var e := EncodeChar(c) + rest;
    if IsUnreserved(c) {
      assert e[1..] == rest;
    } else {
      var u := Utf8(c);
      Utf8Decodes(c);
      assert PercentBytes(u)[..3] == PercentByte(u[0]);
      assert e[..3] == PercentByte(u[0]);
      ReadPercentBytesOf(u, rest);
      assert e[3 * |u|..] == rest;
    }
  }

  /** `decodeURIComponent` undoes `encodeURIComponent`. */
  lemma {:induction false} EncodeDecodes(s: string)
    ensures DecodeURIComponent(EncodeURIComponent(s)) == Some(s)
  {
    if s != [] {
      EncodeDecodes(s[1..]);
      DecodeEncodedChar(s[0], EncodeURIComponent(s[1..]));
      assert s == [s[0]] + s[1..];
    }
  }

  /** Different strings are encoded differently. */
  lemma EncodeInjective(a: string, b: string)
    requires EncodeURIComponent(a) == EncodeURIComponent(b)
    ensures a == b
  {
    EncodeDecodes(a);
    EncodeDecodes(b);
  }
}
