/**
 * The two pieces of ECMAScript number semantics that the hex decoder in
 * src/server.ts relies on: `parseInt(s, 16)` and the conversion a
 * `Uint8Array` applies when a number is stored in it (ToUint8).
 * A NaN result of `parseInt` is modelled as `None`.
 */
module JsNumbers {
  import opened Wrappers

  /** One element of a `Uint8Array`. */
  type Byte = x: int | 0 <= x < 256

  /** WhiteSpace and LineTerminator code points that `parseInt` trims from the front. */
  predicate IsJsWhiteSpace(c: char) {
    c == '\t' || c == '\n' || c == '\U{000B}' || c == '\U{000C}' || c == '\r' ||
    c == ' ' || c == '\U{00A0}' || c == '\U{1680}' ||
    ('\U{2000}' <= c <= '\U{200A}') ||
    c == '\U{2028}' || c == '\U{2029}' || c == '\U{202F}' || c == '\U{205F}' ||
    c == '\U{3000}' || c == '\U{FEFF}'
  }

  /** A radix-16 digit, in either case. */
  predicate IsHexDigit(c: char) {
    ('0' <= c <= '9') || ('a' <= c <= 'f') || ('A' <= c <= 'F')
  }

  function HexDigitValue(c: char): (v: nat)
    requires IsHexDigit(c)
    ensures v < 16
  {
    if '0' <= c <= '9' then c as int - '0' as int
    else if 'a' <= c <= 'f' then c as int - 'a' as int + 10
    else c as int - 'A' as int + 10
  }

  function TrimStart(s: string): (t: string)
    ensures |t| <= |s|
    ensures t == [] || !IsJsWhiteSpace(t[0])
    ensures forall i :: 0 <= i < |s| - |t| ==> IsJsWhiteSpace(s[i])
  {
    if |s| > 0 && IsJsWhiteSpace(s[0]) then TrimStart(s[1..]) else s
  }

  /** Trimming only removes characters from the front: what is left is a suffix of the input. */
  lemma {:induction false} TrimStartIsSuffix(s: string)
    ensures TrimStart(s) == s[|s| - |TrimStart(s)|..]
  {
    if |s| > 0 && IsJsWhiteSpace(s[0]) {
      TrimStartIsSuffix(s[1..]);
      assert s[1..][|s| - 1 - |TrimStart(s)|..] == s[|s| - |TrimStart(s)|..];
    }
  }

  /** The longest prefix of `s` made of radix-16 digits. */
  function HexDigitPrefix(s: string): (d: string)
    ensures |d| <= |s| && forall i :: 0 <= i < |d| ==> d[i] == s[i]
    ensures forall i :: 0 <= i < |d| ==> IsHexDigit(d[i])
    ensures |d| < |s| ==> !IsHexDigit(s[|d|])
  {
    if |s| > 0 && IsHexDigit(s[0]) then [s[0]] + HexDigitPrefix(s[1..]) else []
  }

  /** The number a non-empty or empty string of radix-16 digits denotes, most significant first. */
  function DigitsValue(d: string): (v: nat)
    requires forall i :: 0 <= i < |d| ==> IsHexDigit(d[i])
    ensures |d| <= 1 ==> v < 16
    ensures |d| <= 2 ==> v < 256
  {
    if d == [] then 0 else DigitsValue(d[..|d| - 1]) * 16 + HexDigitValue(d[|d| - 1])
  }

  /**
   * `parseInt(s, 16)`: leading white space is skipped, one sign is read,
   * a `0x`/`0X` prefix is dropped, and the longest run of hex digits that
   * follows is the magnitude; no digit at all gives NaN.
   */
  function ParseIntHex(s: string): (r: Option<int>)
    ensures |s| <= 2 && r.Some? ==> -16 < r.value < 256
  {
    ParseSigned(TrimStart(s))
  }

  /** `parseInt` after trimming: an optional sign, then the magnitude. */
  function ParseSigned(t: string): (r: Option<int>)
    ensures |t| <= 2 && r.Some? ==> -16 < r.value < 256
  {
    if |t| > 0 && t[0] == '-' then
      match ParseMagnitude(t[1..])
      case None => None
      case Some(m) => Some(-m)
    else if |t| > 0 && t[0] == '+' then ParseMagnitude(t[1..])
    else ParseMagnitude(t)
  }

  /** `parseInt` after the sign: a `0x` prefix is dropped, then the digits are read. */
  function ParseMagnitude(u: string): (r: Option<int>)
    ensures r.Some? ==> 0 <= r.value
    ensures |u| <= 1 && r.Some? ==> r.value < 16
    ensures |u| <= 2 && r.Some? ==> r.value < 256
  {
    var digits := HexDigitPrefix(StripHexPrefix(u));
    if digits == [] then None else Some(DigitsValue(digits))
  }

  function StripHexPrefix(u: string): (w: string)
    ensures |w| <= |u|
  {
    if |u| >= 2 && u[0] == '0' && (u[1] == 'x' || u[1] == 'X') then u[2..] else u
  }

  /** The value a `Uint8Array` stores for a number: NaN becomes 0, integers are taken modulo 256. */
  function ToUint8(n: Option<int>): (b: Byte)
    ensures n.None? ==> b == 0
    ensures n.Some? && 0 <= n.value < 256 ==> b == n.value
    ensures n.Some? && -256 <= n.value < 0 ==> b == n.value + 256
  {
    match n
    case None => 0
    case Some(v) => v % 256
  }

  /**
   * A non-empty run of hex digits with no sign, white space or `0x` in front
   * parses to its value. Up to 13 digits the value is below 2^52, so the
   * JavaScript Number `parseInt` returns holds it exactly.
   */
  lemma PlainDigits(s: string)
    requires 0 < |s| <= 13 && forall i :: 0 <= i < |s| ==> IsHexDigit(s[i])
    ensures ParseIntHex(s) == Some(DigitsValue(s))
  {
    UnsignedStart(s);
    MagnitudeOfDigits(s);
  }

  lemma MagnitudeOfDigits(s: string)
    requires |s| > 0 && forall i :: 0 <= i < |s| ==> IsHexDigit(s[i])
    ensures ParseMagnitude(s) == Some(DigitsValue(s))
  {
    assert StripHexPrefix(s) == s;
    assert HexDigitPrefix(s) == s;
  }

  /** A string that starts with neither white space nor a sign is parsed as a magnitude. */
  lemma UnsignedStart(s: string)
    requires |s| > 0 && !IsJsWhiteSpace(s[0]) && s[0] != '-' && s[0] != '+'
    ensures ParseIntHex(s) == ParseMagnitude(s)
  {
    assert TrimStart(s) == s;
  }

  /** Two hex digits parse, and are stored, as `16*hi + lo`. */
  lemma TwoHexDigits(c1: char, c2: char)
    ensures IsHexDigit(c1) && IsHexDigit(c2) ==>
      ParseIntHex([c1, c2]) == Some(16 * HexDigitValue(c1) + HexDigitValue(c2)) &&
      ToUint8(ParseIntHex([c1, c2])) == 16 * HexDigitValue(c1) + HexDigitValue(c2)
  {
    if IsHexDigit(c1) && IsHexDigit(c2) {
      PlainDigits([c1, c2]);
      PairValue(c1, c2);
    }
  }

  lemma PairValue(c1: char, c2: char)
    requires IsHexDigit(c1) && IsHexDigit(c2)
    ensures DigitsValue([c1, c2]) == 16 * HexDigitValue(c1) + HexDigitValue(c2)
  {
    var d := [c1, c2];
    assert d[..|d| - 1] == [c1];
    assert [c1][..0] == [];
    assert DigitsValue([c1]) == HexDigitValue(c1);
    assert d[|d| - 1] == c2;
  }

  /** Parsing stops at the first non-digit: `parseInt("a*", 16)` is 10. */
  lemma DigitThenNonDigit(c1: char, c2: char)
    requires IsHexDigit(c1) && !IsHexDigit(c2)
    ensures ToUint8(ParseIntHex([c1, c2])) == HexDigitValue(c1)
  {
    var s := [c1, c2];
    UnsignedStart(s);
    if c1 == '0' && (c2 == 'x' || c2 == 'X') {
      assert StripHexPrefix(s) == [];
      assert ParseMagnitude(s) == None;
    } else {
      assert StripHexPrefix(s) == s;
      assert HexDigitPrefix(s[1..]) == [];
      assert HexDigitPrefix(s) == [c1];
      MagnitudeOfDigits([c1]);
      assert [c1][..|[c1]| - 1] == [];
      assert DigitsValue([c1]) == HexDigitValue(c1);
      assert ParseMagnitude(s) == ParseMagnitude([c1]);
    }
  }

  /** A pair that starts with neither a digit, a sign nor white space is NaN, stored as 0. */
  lemma NoLeadingDigit(c1: char, c2: char)
    requires !IsHexDigit(c1) && !IsJsWhiteSpace(c1) && c1 != '-' && c1 != '+'
    ensures ToUint8(ParseIntHex([c1, c2])) == 0
  {
    var s := [c1, c2];
    assert TrimStart(s) == s;
    assert ParseSigned(s) == ParseMagnitude(s);
    assert StripHexPrefix(s) == s;
    assert HexDigitPrefix(s) == [];
  }

  /** A minus sign wraps around: `parseInt("-1", 16)` is -1, stored as 255. */
  lemma MinusThenDigit(c2: char)
    requires IsHexDigit(c2)
    ensures ToUint8(ParseIntHex(['-', c2])) == if c2 == '0' then 0 else 256 - HexDigitValue(c2)
  {
    var s := ['-', c2];
    var v := HexDigitValue(c2);
    assert TrimStart(s) == s;
    assert s[1..] == [c2];
    MagnitudeOfDigits([c2]);
    assert DigitsValue([c2]) == v by {
      assert [c2][..|[c2]| - 1] == [];
    }
    var m := -(v as int);
    assert ParseIntHex(s) == Some(m);
  }
}
