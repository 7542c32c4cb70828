/**
 * Hex text for byte strings: the lower-case encoding of Buffer.toString('hex')
 * and the decoding of Buffer.from(text, 'hex'), which reads digit pairs in
 * either case and stops at the first pair that is not two hex digits.
 */
module Hex {
  import opened Wrappers
  import opened Bytes

  predicate IsLowerHexDigit(c: char) {
    '0' <= c <= '9' || 'a' <= c <= 'f'
  }

  /** The value of one hex digit of either case; anything else is not a digit. */
  function DigitValue(c: char): (v: Option<int>)
    ensures v.Some? ==> 0 <= v.value < 16
    ensures v.Some? <==> IsLowerHexDigit(c) || 'A' <= c <= 'F'
  {
    if '0' <= c <= '9' then Some(c as int - '0' as int)
    else if 'a' <= c <= 'f' then Some(c as int - 'a' as int + 10)
    else if 'A' <= c <= 'F' then Some(c as int - 'A' as int + 10)
    else None
  }

  /** The lower-case digit for a value below 16; reading it back gives the value. */
  function HexDigit(d: int): (c: char)
    requires 0 <= d < 16
    ensures IsLowerHexDigit(c) && DigitValue(c) == Some(d)
  {
    if d < 10 then ('0' as int + d) as char else ('a' as int + d - 10) as char
  }

  /** Two lower-case digits per byte, high nibble first. */
  function ToHex(b: seq<uint8>): (s: string)
    ensures |s| == 2 * |b|
    ensures forall i :: 0 <= i < |s| ==> IsLowerHexDigit(s[i])
  {
    if b == [] then "" else [HexDigit(b[0] / 16), HexDigit(b[0] % 16)] + ToHex(b[1..])
  }

  /** Decodes digit pairs until the text ends or a pair is not two hex digits. */
  function FromHex(s: string): (b: seq<uint8>)
    ensures |b| <= |s| / 2
    decreases |s|
  {
    if |s| < 2 then []
    else match (DigitValue(s[0]), DigitValue(s[1]))
      case (Some(hi), Some(lo)) => [hi * 16 + lo] + FromHex(s[2..])
      case _ => []
  }

  /** Decoding the encoding of a byte string gives back exactly that byte string. */
  lemma {:induction false} FromHexToHex(b: seq<uint8>)
    ensures FromHex(ToHex(b)) == b
  {
    if b != [] {
      var s := ToHex(b);
      assert s[2..] == ToHex(b[1..]);
      FromHexToHex(b[1..]);
      assert DigitValue(s[0]) == Some(b[0] / 16) && DigitValue(s[1]) == Some(b[0] % 16);
    }
  }

  /** Conversely, text of even length made of lower-case digits is the encoding of its decoding. */
  lemma {:induction false} ToHexFromHex(s: string)
    requires |s| % 2 == 0
    requires forall i :: 0 <= i < |s| ==> IsLowerHexDigit(s[i])
    ensures ToHex(FromHex(s)) == s
  {
    if |s| >= 2 {
      var hi, lo := DigitValue(s[0]).value, DigitValue(s[1]).value;
      var x: uint8 := hi * 16 + lo;
      assert FromHex(s) == [x] + FromHex(s[2..]);
      ToHexFromHex(s[2..]);
      assert x / 16 == hi && x % 16 == lo;
      LowerDigitDetermined(s[0], HexDigit(hi));
      LowerDigitDetermined(s[1], HexDigit(lo));
      assert ToHex(FromHex(s)) == [s[0], s[1]] + s[2..];
    }
  }

  /** A lower-case digit is determined by its value. */
  lemma LowerDigitDetermined(c: char, d: char)
    requires IsLowerHexDigit(c) && IsLowerHexDigit(d)
    requires DigitValue(c) == DigitValue(d)
    ensures c == d
  {
  }
}
