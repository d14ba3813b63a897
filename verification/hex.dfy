/**
 * The hex decoder of src/server.ts (`hexToUint8Array`) and the lower-case
 * hex encoding that Node's `Buffer.toString('hex')` produces, which the
 * revocation hash in src/utils/func.ts relies on.
 */
module Hex {
  import opened Wrappers
  import opened JsNumbers

  /** The error thrown as `new Error('Invalid hex string')`. */
  datatype HexError = InvalidHexString

  predicate IsLowerHexDigit(c: char) {
    ('0' <= c <= '9') || ('a' <= c <= 'f')
  }

  /** The lower-case digit for a nibble. */
  function LowerHexDigit(n: nat): (c: char)
    requires n < 16
    ensures IsLowerHexDigit(c) && IsHexDigit(c) && HexDigitValue(c) == n
  {
    if n < 10 then ('0' as int + n) as char else ('a' as int + n - 10) as char
  }

  /** A hex digit with `A`-`F` mapped to `a`-`f`. */
  function ToLowerHexDigit(c: char): (d: char)
    requires IsHexDigit(c)
    ensures IsLowerHexDigit(d) && HexDigitValue(d) == HexDigitValue(c)
  {
    if 'A' <= c <= 'F' then (c as int - 'A' as int + 'a' as int) as char else c
  }

  /** Two lower-case hex digits per byte, most significant nibble first. */
  function HexEncode(bytes: seq<Byte>): (r: string)
    ensures |r| == 2 * |bytes|
    ensures forall i :: 0 <= i < |r| ==> IsLowerHexDigit(r[i])
  {
    if bytes == [] then []
    else [LowerHexDigit(bytes[0] / 16), LowerHexDigit(bytes[0] % 16)] + HexEncode(bytes[1..])
  }

  /** The byte stored for characters `2k` and `2k+1`: `parseInt(hex.substr(2k, 2), 16)` as a `Uint8Array` keeps it. */
  function PairByte(hex: string, k: nat): (b: Byte)
    requires 2 * k + 2 <= |hex|
    ensures IsHexDigit(hex[2 * k]) && IsHexDigit(hex[2 * k + 1]) ==>
      b == 16 * HexDigitValue(hex[2 * k]) + HexDigitValue(hex[2 * k + 1])
  {
    var pair := hex[2 * k..2 * k + 2];
    assert pair == [hex[2 * k], hex[2 * k + 1]];
    TwoHexDigits(hex[2 * k], hex[2 * k + 1]);
    ToUint8(ParseIntHex(pair))
  }

  /** What `hexToUint8Array` returns or throws, as a value. */
  function HexDecode(hex: string): (r: Result<seq<Byte>, HexError>)
    ensures r.Failure? <==> |hex| % 2 != 0
    ensures r.Success? ==> |r.value| == |hex| / 2
  {
    if |hex| % 2 != 0 then Failure(InvalidHexString)
    else Success(seq(|hex| / 2, k requires 0 <= k < |hex| / 2 => PairByte(hex, k)))
  }

  /**
   * `hexToUint8Array`: an odd length throws; otherwise a fresh array of
   * `|hex| / 2` bytes is filled in a loop that steps through the string two
   * characters at a time. `written` records the slot each iteration stores to.
   */
  method HexToUint8Array(hex: string) returns (r: Result<array<Byte>, HexError>, ghost written: seq<nat>)
    ensures r.Failure? <==> HexDecode(hex).Failure?
    ensures r.Failure? ==> r.error == InvalidHexString && written == []
    ensures r.Success? ==> fresh(r.value) && r.value[..] == HexDecode(hex).value
    ensures r.Success? ==> |written| == r.value.Length && forall k :: 0 <= k < |written| ==> written[k] == k
  {
    if |hex| % 2 != 0 {
      return Failure(InvalidHexString), [];
    }
    var bytes := new Byte[|hex| / 2];
    ghost var decoded := HexDecode(hex).value;
    written := [];
    var i := 0;
    while i < |hex|
      invariant 0 <= i <= |hex| && i == 2 * |written|
      invariant forall k :: 0 <= k < |written| ==> written[k] == k
      invariant bytes[..|written|] == decoded[..|written|]
    {
      assert i / 2 == |written|;
      bytes[i / 2] := PairByte(hex, i / 2);
      written := written + [i / 2];
      i := i + 2;
    }
    assert bytes[..] == bytes[..|written|];
    return Success(bytes), written;
  }

  /** Two hex digits (either case) decode to their base-16 value. */
  lemma DecodeHexDigits(hex: string, k: nat)
    requires |hex| % 2 == 0 && k < |hex| / 2
    requires IsHexDigit(hex[2 * k]) && IsHexDigit(hex[2 * k + 1])
    ensures HexDecode(hex).value[k] == 16 * HexDigitValue(hex[2 * k]) + HexDigitValue(hex[2 * k + 1])
  {
  }

  lemma {:induction false} HexEncodeAt(bytes: seq<Byte>, k: nat)
    requires k < |bytes|
    ensures HexEncode(bytes)[2 * k] == LowerHexDigit(bytes[k] / 16)
    ensures HexEncode(bytes)[2 * k + 1] == LowerHexDigit(bytes[k] % 16)
  {
    if k > 0 {
      HexEncodeAt(bytes[1..], k - 1);
    }
  }

  /** Decoding the hex encoding of any bytes gives them back. */
  lemma HexDecodeEncode(bytes: seq<Byte>)
    ensures HexDecode(HexEncode(bytes)) == Success(bytes)
  {
    var hex := HexEncode(bytes);
    var decoded := HexDecode(hex).value;
    assert |decoded| == |bytes|;
    forall k | 0 <= k < |bytes|
      ensures decoded[k] == bytes[k]
    {
      HexEncodeAt(bytes, k);
      DecodeHexDigits(hex, k);
      var b := bytes[k];
      assert decoded[k] == 16 * (b / 16) + b % 16;
    }
    assert decoded == bytes;
  }

  /** Encoding what an all-digit string decodes to gives the string back, in lower case. */
  lemma HexEncodeDecode(hex: string)
    requires |hex| % 2 == 0
    requires forall i :: 0 <= i < |hex| ==> IsHexDigit(hex[i])
    ensures HexDecode(hex).Success?
    ensures HexEncode(HexDecode(hex).value) == seq(|hex|, i requires 0 <= i < |hex| => ToLowerHexDigit(hex[i]))
  {
    var bytes := HexDecode(hex).value;
    var r := HexEncode(bytes);
    forall i | 0 <= i < |hex|
      ensures r[i] == ToLowerHexDigit(hex[i])
    {
      var k := i / 2;
      HexEncodeAt(bytes, k);
      DecodeHexDigits(hex, k);
      var hi, lo := HexDigitValue(hex[2 * k]), HexDigitValue(hex[2 * k + 1]);
      assert bytes[k] / 16 == hi && bytes[k] % 16 == lo;
      assert i == 2 * k || i == 2 * k + 1;
      DigitOfValue(hex[i]);
    }
  }

  /** The lower-case digit for a digit's value is that digit in lower case. */
  lemma DigitOfValue(c: char)
    requires IsHexDigit(c)
    ensures LowerHexDigit(HexDigitValue(c)) == ToLowerHexDigit(c)
  {
  }
}
