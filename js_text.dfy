/**
 * The ECMAScript string and number operations the server code relies on:
 * `trim`, `toUpperCase`, `String(n)` for a non-negative integer, `padStart`,
 * `parseInt`, `startsWith` and `length` (counted in UTF-16 code units).
 */
module JsText {
  import opened Util

  // ---------------------------------------------------------------------------
  // Whitespace and trim
  // ---------------------------------------------------------------------------

  /** The code points `String.prototype.trim` strips: ECMAScript's WhiteSpace and LineTerminator. */
  predicate IsJsSpace(c: char) {
    || c == '\t' || c == '\n' || c == '\U{B}' || c == '\U{C}' || c == '\r' || c == ' '
    || c == '\U{A0}' || c == '\U{1680}' || ('\U{2000}' <= c <= '\U{200A}')
    || c == '\U{2028}' || c == '\U{2029}' || c == '\U{202F}' || c == '\U{205F}'
    || c == '\U{3000}' || c == '\U{FEFF}'
  }

  /** Neither end of `s` is whitespace. */
  predicate IsTrimmed(s: string) {
    s == [] || (!IsJsSpace(s[0]) && !IsJsSpace(s[|s| - 1]))
  }

  /** `s` without its leading whitespace. */
  function TrimStart(s: string): (r: string)
    ensures |r| <= |s|
    ensures r == [] || !IsJsSpace(r[0])
  {
    if s != [] && IsJsSpace(s[0]) then TrimStart(s[1..]) else s
  }

  /** `TrimStart` keeps a suffix of `s`, and only whitespace was dropped. */
  lemma {:induction false} TrimStartIsSuffix(s: string)
    ensures var r := TrimStart(s);
      && r == s[|s| - |r|..]
      && forall k :: 0 <= k < |s| - |r| ==> IsJsSpace(s[k])
  {
    if s != [] && IsJsSpace(s[0]) {
      TrimStartIsSuffix(s[1..]);
      assert s[1..][|s| - 1 - |TrimStart(s)|..] == s[|s| - |TrimStart(s)|..];
      forall k | 1 <= k < |s| - |TrimStart(s)| ensures IsJsSpace(s[k]) {
        assert s[k] == s[1..][k - 1];
      }
    }
  }

  /** `s` without its trailing whitespace. */
  function TrimEnd(s: string): (r: string)
    ensures |r| <= |s|
    ensures r == [] || !IsJsSpace(r[|r| - 1])
  {
    if s != [] && IsJsSpace(s[|s| - 1]) then TrimEnd(s[..|s| - 1]) else s
  }

  /** `TrimEnd` keeps a prefix of `s`, and only whitespace was dropped. */
  lemma {:induction false} TrimEndIsPrefix(s: string)
    ensures var r := TrimEnd(s);
      && r == s[..|r|]
      && forall k :: |r| <= k < |s| ==> IsJsSpace(s[k])
  {
    if s != [] && IsJsSpace(s[|s| - 1]) {
      TrimEndIsPrefix(s[..|s| - 1]);
      assert s[..|s| - 1][..|TrimEnd(s)|] == s[..|TrimEnd(s)|];
      forall k | |TrimEnd(s)| <= k < |s| - 1 ensures IsJsSpace(s[k]) {
        assert s[k] == s[..|s| - 1][k];
      }
    }
  }

  /** `String.prototype.trim`: neither end of the result is whitespace. */
  function Trim(s: string): (r: string)
    ensures IsTrimmed(r) && |r| <= |s|
  {
    var t := TrimStart(s);
    var r := TrimEnd(t);
    assert r == [] || !IsJsSpace(r[0]) by {
      if r != [] {
        TrimEndIsPrefix(t);
        assert r[0] == t[0];
      }
    }
    r
  }

  /** The trimmed string is the slice of `s` that starts after the leading whitespace. */
  lemma TrimIsSlice(s: string)
    ensures var a := |s| - |TrimStart(s)|; var r := Trim(s);
      a + |r| <= |s| && r == s[a..a + |r|]
  {
    var t := TrimStart(s);
    var a := |s| - |t|;
    var r := Trim(s);
    TrimStartIsSuffix(s);
    TrimEndIsPrefix(t);
    assert r == TrimEnd(t);
    assert t == s[a..];
    assert r == t[..|r|];
    assert s[a..][..|r|] == s[a..a + |r|];
  }

  /** A slice of a string the upper-case mapping leaves alone is left alone too. */
  lemma SliceUpperFixed(u: string, a: nat, b: nat)
    requires IsUpperFixed(u) && a <= b <= |u|
    ensures IsUpperFixed(u[a..b])
  {
    forall k | 0 <= k < b - a ensures IsUpperChar(u[a..b][k]) {
      assert u[a..b][k] == u[a + k];
    }
  }

  /** A string without whitespace at its ends is its own trim. */
  lemma TrimOfTrimmed(s: string)
    requires IsTrimmed(s)
    ensures Trim(s) == s
  {
    assert TrimStart(s) == s;
  }

  /** Trimming twice is trimming once. */
  lemma TrimIdempotent(s: string)
    ensures Trim(Trim(s)) == Trim(s)
  {
    TrimOfTrimmed(Trim(s));
  }

  // ---------------------------------------------------------------------------
  // toUpperCase
  // ---------------------------------------------------------------------------

  /**
   * Unicode's full upper-case mapping, for the Basic Latin and Latin-1 blocks:
   * a-z, the Latin-1 small letters, the sharp s (which becomes "SS"), the micro
   * sign and y with diaeresis. Every other code point maps to itself.
   */
  function UpperOf(c: char): string {
    if 'a' <= c <= 'z' then [(c as int - 32) as char]
    else if c == '\U{B5}' then ['\U{39C}']
    else if c == '\U{DF}' then "SS"
    else if '\U{E0}' <= c <= '\U{FE}' && c != '\U{F7}' then [(c as int - 32) as char]
    else if c == '\U{FF}' then ['\U{178}']
    else [c]
  }

  /** `String.prototype.toUpperCase`, code point by code point. */
  function ToUpperCase(s: string): string {
    if s == [] then [] else UpperOf(s[0]) + ToUpperCase(s[1..])
  }

  /** `c` has no upper-case mapping other than itself. */
  predicate IsUpperChar(c: char) {
    && !('a' <= c <= 'z') && c != '\U{B5}' && c != '\U{DF}'
    && !('\U{E0}' <= c <= '\U{FE}' && c != '\U{F7}') && c != '\U{FF}'
  }

  /** The characters the mapping leaves alone are exactly those without a mapping of their own. */
  lemma UpperOfChar(c: char)
    ensures UpperOf(c) == [c] <==> IsUpperChar(c)
  {
    if 'a' <= c <= 'z' || ('\U{E0}' <= c <= '\U{FE}' && c != '\U{F7}') {
      assert UpperOf(c)[0] != c;
    }
  }

  /** Every character of `s` is left alone by the upper-case mapping. */
  predicate IsUpperFixed(s: string) {
    forall k :: 0 <= k < |s| ==> IsUpperChar(s[k])
  }

  /** A string is normalized the way form fields are: upper-cased and trimmed. */
  predicate IsNormalized(s: string) {
    IsUpperFixed(s) && IsTrimmed(s)
  }

  /** `value.toUpperCase().trim()`, the normalization applied to most form fields. */
  function Normalize(s: string): string {
    Trim(ToUpperCase(s))
  }

  /** Upper-casing distributes over concatenation. */
  lemma {:induction false} ToUpperCaseAppend(a: string, b: string)
    ensures ToUpperCase(a + b) == ToUpperCase(a) + ToUpperCase(b)
  {
    if a == [] {
      assert a + b == b;
    } else {
      assert (a + b)[1..] == a[1..] + b;
      ToUpperCaseAppend(a[1..], b);
    }
  }

  /** A string whose characters are fixed points of the mapping is its own upper case. */
  lemma {:induction false} UpperOfFixed(s: string)
    requires IsUpperFixed(s)
    ensures ToUpperCase(s) == s
  {
    if s != [] {
      UpperOfChar(s[0]);
      UpperOfFixed(s[1..]);
    }
  }

  /** Whatever the mapping produces, it does not change again. */
  lemma {:induction false} UpperIsFixed(s: string)
    ensures IsUpperFixed(ToUpperCase(s))
  {
    if s != [] {
      UpperIsFixed(s[1..]);
      var u := UpperOf(s[0]);
      assert IsUpperFixed(u);
      var t := ToUpperCase(s[1..]);
      forall k | 0 <= k < |u + t| ensures IsUpperChar((u + t)[k]) {
        if k < |u| { assert (u + t)[k] == u[k]; } else { assert (u + t)[k] == t[k - |u|]; }
      }
    }
  }

  /** Upper-casing twice is upper-casing once. */
  lemma ToUpperCaseIdempotent(s: string)
    ensures ToUpperCase(ToUpperCase(s)) == ToUpperCase(s)
  {
    UpperIsFixed(s);
    UpperOfFixed(ToUpperCase(s));
  }

  /** The normalization yields an upper-case, trimmed string, and is therefore idempotent. */
  lemma NormalizeIsNormalized(s: string)
    ensures IsNormalized(Normalize(s))
    ensures Normalize(Normalize(s)) == Normalize(s)
  {
    var u := ToUpperCase(s);
    UpperIsFixed(s);
    var r := Trim(u);
    TrimIsSlice(u);
    SliceUpperFixed(u, |u| - |TrimStart(u)|, |u| - |TrimStart(u)| + |r|);
    UpperOfFixed(r);
    TrimOfTrimmed(r);
  }

  // ---------------------------------------------------------------------------
  // Digits, String(n), padStart
  // ---------------------------------------------------------------------------

  predicate IsDecDigit(c: char) { '0' <= c <= '9' }

  predicate IsHexDigit(c: char) { IsDecDigit(c) || 'a' <= c <= 'f' || 'A' <= c <= 'F' }

  predicate AllDecDigits(s: string) { forall k :: 0 <= k < |s| ==> IsDecDigit(s[k]) }

  /** The numeric value of one hexadecimal digit, in either case. */
  function DigitValue(c: char): (d: nat)
    requires IsHexDigit(c)
    ensures d < 16
    ensures IsDecDigit(c) <==> d < 10
  {
    if IsDecDigit(c) then c as int - '0' as int
    else if 'a' <= c <= 'f' then c as int - 'a' as int + 10
    else c as int - 'A' as int + 10
  }

  /** `c` is a digit of the given radix. */
  predicate IsRadixDigit(c: char, radix: nat) {
    IsHexDigit(c) && DigitValue(c) < radix
  }

  predicate AllRadixDigits(s: string, radix: nat) {
    forall k :: 0 <= k < |s| ==> IsRadixDigit(s[k], radix)
  }

  /** The value of a digit string in the given radix, most significant digit first. */
  function RadixValue(s: string, radix: nat): nat
    requires AllRadixDigits(s, radix)
  {
    if s == [] then 0 else RadixValue(s[..|s| - 1], radix) * radix + DigitValue(s[|s| - 1])
  }

  /** The decimal digit for `d`. */
  function DecDigit(d: nat): (c: char)
    requires d < 10
    ensures IsDecDigit(c) && DigitValue(c) == d
  {
    (48 + d) as char
  }

  /**
   * `String(n)` for a non-negative integer: the shortest decimal numeral, which
   * starts with '0' only when it is "0".
   */
  function Decimal(n: nat): (r: string)
    ensures 1 <= |r| && AllDecDigits(r)
    ensures r[0] == '0' <==> n == 0
  {
    if n < 10 then [DecDigit(n)] else Decimal(n / 10) + [DecDigit(n % 10)]
  }

  /** Reading the numeral of `n` back gives `n`. */
  lemma {:induction false} DecimalValue(n: nat)
    ensures AllRadixDigits(Decimal(n), 10)
    ensures RadixValue(Decimal(n), 10) == n
  {
    var r := Decimal(n);
    assert AllRadixDigits(r, 10) by {
      forall k | 0 <= k < |r| ensures IsRadixDigit(r[k], 10) { assert IsDecDigit(r[k]); }
    }
    if n >= 10 {
      DecimalValue(n / 10);
      assert r[..|r| - 1] == Decimal(n / 10);
    }
  }

  /** Distinct numbers have distinct numerals. */
  lemma DecimalInjective(m: nat, n: nat)
    requires Decimal(m) == Decimal(n)
    ensures m == n
  {
    DecimalValue(m);
    DecimalValue(n);
  }

  function Pow10(k: nat): (p: nat)
    ensures p >= 1
  {
    if k == 0 then 1 else 10 * Pow10(k - 1)
  }

  /** The numeral of `n` has at most `k` digits exactly when `n < 10^k`. */
  lemma {:induction false} DecimalLength(n: nat, k: nat)
    requires k >= 1
    ensures |Decimal(n)| <= k <==> n < Pow10(k)
  {
    if n >= 10 {
      if k == 1 {
        assert |Decimal(n / 10)| >= 1;
      } else {
        DecimalLength(n / 10, k - 1);
      }
    } else {
      if k > 1 {
        assert Pow10(k) == 10 * Pow10(k - 1);
      }
    }
  }

  /** The numeral of a number from 100000 through 999999 has exactly six digits. */
  lemma SixDigitNumeral(n: nat)
    requires 100000 <= n <= 999999
    ensures |Decimal(n)| == 6
  {
    DecimalLength(n, 6);
    DecimalLength(n, 5);
    assert Pow10(5) == 100000;
    assert Pow10(6) == 1000000;
  }

  /** `n` copies of `c`. */
  function Repeat(c: char, n: nat): (r: string)
    ensures |r| == n && forall k :: 0 <= k < n ==> r[k] == c
  {
    if n == 0 then [] else [c] + Repeat(c, n - 1)
  }

  /**
   * `s.padStart(target, c)` with a one-character filler: `s` preceded by as many
   * copies of `c` as bring it to `target` characters; unchanged when already that
   * long. (The strings padded here are ASCII numerals, so characters and UTF-16
   * code units agree.)
   */
  function PadStart(s: string, target: nat, c: char): (r: string)
    ensures |r| == (if |s| < target then target else |s|)
  {
    if |s| < target then Repeat(c, target - |s|) + s else s
  }

  /** The padded string ends with `s`, and everything in front of it is the filler. */
  lemma PadStartShape(s: string, target: nat, c: char)
    ensures var r := PadStart(s, target, c);
      && r[|r| - |s|..] == s
      && forall k :: 0 <= k < |r| - |s| ==> r[k] == c
  {
  }

  /** Leading zeros do not change a decimal value. */
  lemma {:induction false} LeadingZerosValue(z: string, s: string)
    requires forall k :: 0 <= k < |z| ==> z[k] == '0'
    requires AllRadixDigits(s, 10)
    ensures AllRadixDigits(z + s, 10)
    ensures RadixValue(z + s, 10) == RadixValue(s, 10)
    decreases |s|, |z|
  {
    assert AllRadixDigits(z + s, 10) by {
      forall k | 0 <= k < |z + s| ensures IsRadixDigit((z + s)[k], 10) {
        if k < |z| { assert (z + s)[k] == '0'; } else { assert (z + s)[k] == s[k - |z|]; }
      }
    }
    if s == [] {
      if z != [] {
        assert z + s == z;
        assert z[..|z| - 1] + [] == z[..|z| - 1];
        LeadingZerosValue(z[..|z| - 1], []);
      }
    } else {
      assert (z + s)[..|z + s| - 1] == z + s[..|s| - 1];
      LeadingZerosValue(z, s[..|s| - 1]);
    }
  }

  // ---------------------------------------------------------------------------
  // parseInt
  // ---------------------------------------------------------------------------

  /** The longest prefix of `s` made of digits of the radix. */
  function LeadingDigits(s: string, radix: nat): (r: string)
    ensures r <= s && AllRadixDigits(r, radix)
    ensures |r| < |s| ==> !IsRadixDigit(s[|r|], radix)
  {
    if s != [] && IsRadixDigit(s[0], radix) then [s[0]] + LeadingDigits(s[1..], radix) else []
  }

  /**
   * The digits after the sign: a "0x" or "0X" prefix selects radix 16, otherwise
   * the radix is 10; the value is that of the longest run of digits of the radix
   * that follows, and there is none (NaN) when that run is empty.
   */
  function ParseUnsigned(u: string): Option<nat> {
    var hex := |u| >= 2 && u[0] == '0' && (u[1] == 'x' || u[1] == 'X');
    var radix := if hex then 16 else 10;
    var digits := LeadingDigits(if hex then u[2..] else u, radix);
    if digits == [] then None else Some(RadixValue(digits, radix))
  }

  /** One optional sign, then the unsigned part. */
  function ParseSigned(t: string): Option<int> {
    if t != [] && t[0] == '-' then
      match ParseUnsigned(t[1..])
      case None => None
      case Some(v) => Some(-(v as int))
    else if t != [] && t[0] == '+' then
      match ParseUnsigned(t[1..])
      case None => None
      case Some(v) => Some(v as int)
    else
      match ParseUnsigned(t)
      case None => None
      case Some(v) => Some(v as int)
  }

  /**
   * The global `parseInt(s)` with no radix argument; `None` stands for NaN.
   * Leading whitespace is skipped before the sign.
   */
  function ParseInt(s: string): Option<int> {
    ParseSigned(TrimStart(s))
  }

  /** A run of digits followed by something that is not a digit is read as that run. */
  lemma {:induction false} LeadingDigitsOfNumeral(d: string, rest: string)
    requires AllDecDigits(d)
    requires rest == [] || !IsDecDigit(rest[0])
    ensures LeadingDigits(d + rest, 10) == d
  {
    if d != [] {
      assert (d + rest)[1..] == d[1..] + rest;
      assert IsRadixDigit(d[0], 10);
      LeadingDigitsOfNumeral(d[1..], rest);
    } else {
      assert d + rest == rest;
      if rest != [] {
        assert !IsRadixDigit(rest[0], 10) by {
          if IsHexDigit(rest[0]) { assert DigitValue(rest[0]) >= 10; }
        }
      }
    }
  }

  /** A sign `parseInt` accepts in front of the digits: none, '-' or '+'. */
  predicate IsSign(sign: string) { sign == "" || sign == "-" || sign == "+" }

  /** The value a signed run of digits stands for. */
  function Signed(sign: string, v: nat): int {
    if sign == "-" then -(v as int) else v as int
  }

  /**
   * A tail that cannot continue the run of digits `d`: it starts with no digit,
   * and with no 'x' or 'X' when `d` is a lone "0" (which would make "0x" the
   * hexadecimal prefix).
   */
  predicate EndsNumeral(d: string, rest: string) {
    rest == [] || (!IsDecDigit(rest[0]) && !(d == "0" && (rest[0] == 'x' || rest[0] == 'X')))
  }

  /**
   * The unsigned reader takes back any non-empty run of decimal digits (leading
   * zeros included) followed by a tail that cannot continue it.
   */
  lemma ParseUnsignedOfNumeral(d: string, rest: string)
    requires d != [] && AllDecDigits(d)
    requires EndsNumeral(d, rest)
    ensures AllRadixDigits(d, 10) && ParseUnsigned(d + rest) == Some(RadixValue(d, 10))
  {
    var u := d + rest;
    assert u[0] == d[0];
    if |u| >= 2 {
      if |d| >= 2 { assert u[1] == d[1]; } else { assert u[1] == rest[0] && (d == "0" <==> d[0] == '0'); }
    }
    LeadingDigitsOfNumeral(d, rest);
  }

  /** A sign in front of text that starts with a digit applies to whatever the unsigned reader gives. */
  lemma SignOfDigits(sign: string, u: string)
    requires IsSign(sign) && u != [] && IsDecDigit(u[0])
    ensures ParseSigned(sign + u) == if ParseUnsigned(u).None? then None else Some(Signed(sign, ParseUnsigned(u).value))
  {
    var t := sign + u;
    if sign == "" {
      assert t == u;
    } else {
      assert t[0] == sign[0] && t[1..] == u;
    }
  }

  /** The signed reader takes back a run of digits after an optional sign. */
  lemma ParseSignedOfNumeral(sign: string, d: string, rest: string)
    requires IsSign(sign) && d != [] && AllDecDigits(d)
    requires EndsNumeral(d, rest)
    ensures AllRadixDigits(d, 10) && ParseSigned(sign + (d + rest)) == Some(Signed(sign, RadixValue(d, 10)))
  {
    ParseUnsignedOfNumeral(d, rest);
    assert (d + rest)[0] == d[0];
    SignOfDigits(sign, d + rest);
  }

  /**
   * `parseInt` skips leading whitespace and reads an optional sign and the
   * longest run of decimal digits, with any leading zeros; a tail as in
   * `ParseUnsignedOfNumeral` is ignored.
   */
  lemma ParseIntOfNumeral(ws: string, sign: string, d: string, rest: string)
    requires forall k :: 0 <= k < |ws| ==> IsJsSpace(ws[k])
    requires IsSign(sign) && d != [] && AllDecDigits(d)
    requires EndsNumeral(d, rest)
    ensures AllRadixDigits(d, 10) && ParseInt(ws + (sign + (d + rest))) == Some(Signed(sign, RadixValue(d, 10)))
  {
    var t := sign + (d + rest);
    assert t[0] == '-' || t[0] == '+' || IsDecDigit(t[0]) by {
      if sign == "" { assert t[0] == d[0]; } else { assert t[0] == sign[0]; }
    }
    TrimStartSkips(ws, t);
    ParseSignedOfNumeral(sign, d, rest);
  }

  /** Whitespace in front of a string that does not start with whitespace is all `TrimStart` removes. */
  lemma {:induction false} TrimStartSkips(ws: string, s: string)
    requires forall k :: 0 <= k < |ws| ==> IsJsSpace(ws[k])
    requires s == [] || !IsJsSpace(s[0])
    ensures TrimStart(ws + s) == s
  {
    if ws != [] {
      assert (ws + s)[1..] == ws[1..] + s;
      TrimStartSkips(ws[1..], s);
    } else {
      assert ws + s == s;
    }
  }

  // ---------------------------------------------------------------------------
  // Lengths in UTF-16 code units
  // ---------------------------------------------------------------------------

  /** JavaScript's `length`: code points above U+FFFF take two UTF-16 code units. */
  function Utf16Length(s: string): (n: nat)
    ensures n >= |s|
    ensures (forall k :: 0 <= k < |s| ==> s[k] as int < 0x10000) ==> n == |s|
  {
    if s == [] then 0 else (if s[0] as int >= 0x10000 then 2 else 1) + Utf16Length(s[1..])
  }
}
