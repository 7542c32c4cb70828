/**
 * Textual derivation paths in BIP-32 notation, as far as the wallet uses them:
 * segments separated by '/', each a decimal index below 2^31 with an optional
 * hardened marker ('h', 'H' or '\''), a hardened index being stored as the
 * index plus 2^31. Only this decimal-plus-marker form is covered.
 */
module Bip32Path {
  import opened Wrappers

  const HARDENED_OFFSET: int := 0x8000_0000

  datatype PathError =
    | MalformedSegment   // a segment that is not digits with an optional marker
    | IndexTooLarge      // a segment whose decimal index is 2^31 or more

  // ---------------------------------------------------------------- decimal

  predicate IsDigit(c: char) {
    '0' <= c <= '9'
  }

  predicate AllDigits(s: string) {
    forall i :: 0 <= i < |s| ==> IsDigit(s[i])
  }

  function DigitChar(d: nat): (c: char)
    requires d < 10
    ensures IsDigit(c) && c as int - '0' as int == d
  {
    ('0' as int + d) as char
  }

  /** The value of a string of decimal digits, most significant first. */
  function DecimalValue(s: string): nat
    requires AllDigits(s)
  {
    if s == [] then 0 else DecimalValue(s[..|s| - 1]) * 10 + (s[|s| - 1] as int - '0' as int)
  }

  /**
   * The decimal text of a natural number, as a JavaScript template literal
   * writes it: digits only, reading back as the number, and canonical, with
   * no leading zero except in "0" itself.
   */
  function NatToDecimal(n: nat): (s: string)
    ensures |s| >= 1 && AllDigits(s) && DecimalValue(s) == n
    ensures s[0] == '0' ==> n == 0
  {
    if n < 10 then [DigitChar(n)]
    else
      var prefix := NatToDecimal(n / 10);
      var s := prefix + [DigitChar(n % 10)];
      assert s[..|s| - 1] == prefix;
      s
  }

  // ---------------------------------------------------------------- splitting

  /** The number of separators in a text. */
  function SlashCount(s: string): nat {
    if s == [] then 0 else (if s[0] == '/' then 1 else 0) + SlashCount(s[1..])
  }

  /** The pieces between the separators, as String.split('/') returns them: one more than there are separators. */
  function Split(s: string): (parts: seq<string>)
    ensures |parts| == SlashCount(s) + 1
  {
    if s == [] then [""]
    else
      var rest := Split(s[1..]);
      if s[0] == '/' then [""] + rest else [[s[0]] + rest[0]] + rest[1..]
  }

  /** No piece contains the separator. */
  lemma {:induction false} SplitPiecesNoSlash(s: string)
    ensures forall k :: 0 <= k < |Split(s)| ==> '/' !in Split(s)[k]
  {
    if s != [] {
      SplitPiecesNoSlash(s[1..]);
    }
  }

  /** The pieces joined with '/' between them. */
  function Join(parts: seq<string>): string
    requires |parts| >= 1
  {
    if |parts| == 1 then parts[0] else parts[0] + "/" + Join(parts[1..])
  }

  /** Joining the pieces gives back the text that was split. */
  lemma {:induction false} JoinSplit(s: string)
    ensures Join(Split(s)) == s
  {
    if s != [] {
      var rest := Split(s[1..]);
      JoinSplit(s[1..]);
      if s[0] == '/' {
        JoinCons("", rest);
      } else {
        JoinPrependChar(s[0], rest);
      }
      assert s == [s[0]] + s[1..];
    }
  }

  /** A character in front of the first piece is a character in front of the joined text. */
  lemma JoinPrependChar(c: char, parts: seq<string>)
    requires |parts| >= 1
    ensures Join([[c] + parts[0]] + parts[1..]) == [c] + Join(parts)
  {
    var moved := [[c] + parts[0]] + parts[1..];
    assert moved[0] == [c] + parts[0] && moved[1..] == parts[1..];
    if |parts| > 1 {
      PrependAcrossSlash(c, parts[0], Join(parts[1..]));
    }
  }

  lemma PrependAcrossSlash(c: char, x: string, y: string)
    ensures [c] + x + "/" + y == [c] + (x + "/" + y)
  {
  }

  /** Splitting joined pieces that contain no separator gives back the pieces. */
  lemma {:induction false} SplitJoin(parts: seq<string>)
    requires |parts| >= 1
    requires forall k :: 0 <= k < |parts| ==> '/' !in parts[k]
    ensures Split(Join(parts)) == parts
  {
    NoSlashIsOnePiece(parts[0]);
    if |parts| > 1 {
      SplitJoin(parts[1..]);
      SplitConcat(parts[0], Join(parts[1..]));
      assert parts == [parts[0]] + parts[1..];
    }
  }

  /** Text without a separator is a single piece. */
  lemma {:induction false} NoSlashIsOnePiece(a: string)
    requires '/' !in a
    ensures Split(a) == [a]
  {
    if a != [] {
      assert a[0] in a;
      assert '/' !in a[1..] by {
        forall j | 0 <= j < |a[1..]| ensures a[1..][j] != '/' {
          assert a[1..][j] == a[j + 1] && a[j + 1] in a;
        }
      }
      NoSlashIsOnePiece(a[1..]);
      assert a == [a[0]] + a[1..];
    }
  }

  /** Splitting text joined at a separator splits each side separately. */
  lemma {:induction false} SplitConcat(p: string, q: string)
    ensures Split(p + "/" + q) == Split(p) + Split(q)
  {
    var s := p + "/" + q;
    if p == [] {
      assert s == "/" + q;
      TailOfConcat("/", q);
    } else {
      ConcatAssoc(p, "/", q);
      TailOfConcat(p, "/" + q);
      ConcatAssoc(p[1..], "/", q);
      SplitConcat(p[1..], q);
      var rest, tail := Split(p[1..]), Split(q);
      assert Split(s[1..]) == rest + tail;
      if p[0] == '/' {
        ConcatAssoc([""], rest, tail);
      } else {
        TailOfConcat(rest, tail);
        ConcatAssoc([[p[0]] + rest[0]], rest[1..], tail);
      }
    }
  }

  lemma ConcatAssoc<T>(a: seq<T>, b: seq<T>, c: seq<T>)
    ensures a + b + c == a + (b + c)
  {
  }

  // ---------------------------------------------------------------- parsing

  predicate IsHardenedMarker(c: char) {
    c == 'h' || c == 'H' || c == '\''
  }

  /** One segment: decimal digits below 2^31, hardened when a marker follows. */
  function ParseSegment(seg: string): (r: Result<nat, PathError>)
    ensures r.Ok? ==> r.value < 0x1_0000_0000
    ensures r.Ok? ==> |seg| >= 1 && (r.value >= HARDENED_OFFSET <==> IsHardenedMarker(seg[|seg| - 1]))
  {
    if seg == [] then Err(MalformedSegment)
    else
      var hardened := IsHardenedMarker(seg[|seg| - 1]);
      var digits := if hardened then seg[..|seg| - 1] else seg;
      if digits == [] || !AllDigits(digits) then Err(MalformedSegment)
      else if DecimalValue(digits) >= HARDENED_OFFSET then Err(IndexTooLarge)
      else if hardened then Ok(DecimalValue(digits) + HARDENED_OFFSET)
      else Ok(DecimalValue(digits))
  }

  /** Parses the pieces in order; the first piece that does not parse decides the error. */
  function ParseSegments(parts: seq<string>): (r: Result<seq<nat>, PathError>)
    ensures r.Ok? ==> |r.value| == |parts|
    ensures r.Ok? ==> forall i :: 0 <= i < |r.value| ==> r.value[i] < 0x1_0000_0000
  {
    if parts == [] then Ok([])
    else match ParseSegment(parts[0])
      case Err(e) => Err(e)
      case Ok(v) =>
        match ParseSegments(parts[1..])
        case Err(e) => Err(e)
        case Ok(rest) => Ok([v] + rest)
  }

  /** The list parses exactly when every piece does, and then piece by piece. */
  lemma {:induction false} ParseSegmentsPointwise(parts: seq<string>)
    ensures ParseSegments(parts).Ok? <==> forall i :: 0 <= i < |parts| ==> ParseSegment(parts[i]).Ok?
    ensures ParseSegments(parts).Ok? ==>
      forall i :: 0 <= i < |parts| ==> ParseSegment(parts[i]) == Ok(ParseSegments(parts).value[i])
  {
    if parts != [] {
      ParseSegmentsPointwise(parts[1..]);
      assert forall i :: 1 <= i < |parts| ==> parts[i] == parts[1..][i - 1];
    }
  }

  /** The first piece that does not parse decides the error; every piece before it parses. */
  lemma {:induction false} ParseSegmentsFirstError(parts: seq<string>)
    ensures ParseSegments(parts).Err? ==>
      exists k :: 0 <= k < |parts| && ParseSegment(parts[k]) == Err(ParseSegments(parts).error)
        && forall j :: 0 <= j < k ==> ParseSegment(parts[j]).Ok?
  {
    if parts != [] && ParseSegment(parts[0]).Ok? && ParseSegments(parts).Err? {
      ParseSegmentsFirstError(parts[1..]);
      var k :| 0 <= k < |parts[1..]| && ParseSegment(parts[1..][k]) == Err(ParseSegments(parts[1..]).error)
        && forall j :: 0 <= j < k ==> ParseSegment(parts[1..][j]).Ok?;
      assert forall j :: 1 <= j < k + 1 ==> parts[j] == parts[1..][j - 1];
      assert ParseSegment(parts[k + 1]) == Err(ParseSegments(parts).error);
    }
  }

  /** A whole path without its root marker: one index per '/'-separated segment. */
  function ParsePath(path: string): (r: Result<seq<nat>, PathError>)
    ensures r.Ok? ==> |r.value| == |Split(path)|
    ensures r.Ok? ==> forall i :: 0 <= i < |r.value| ==> r.value[i] < 0x1_0000_0000
  {
    ParseSegmentsPointwise(Split(path));
    ParseSegments(Split(path))
  }

  /** Two lists parsed one after the other parse as their concatenation. */
  lemma {:induction false} ParseSegmentsConcat(p: seq<string>, q: seq<string>)
    requires ParseSegments(p).Ok? && ParseSegments(q).Ok?
    ensures ParseSegments(p + q) == Ok(ParseSegments(p).value + ParseSegments(q).value)
  {
    if p == [] {
      assert p + q == q;
      assert ParseSegments(p).value == [];
      assert [] + ParseSegments(q).value == ParseSegments(q).value;
    } else {
      var rp, rq := ParseSegments(p[1..]).value, ParseSegments(q).value;
      var v := ParseSegment(p[0]).value;
      TailOfConcat(p, q);
      ParseSegmentsConcat(p[1..], q);
      assert ParseSegments(p[1..] + q) == Ok(rp + rq);
      ConcatAssoc([v], rp, rq);
    }
  }

  lemma TailOfConcat<T>(p: seq<T>, q: seq<T>)
    requires p != []
    ensures (p + q)[0] == p[0] && (p + q)[1..] == p[1..] + q
  {
  }

  // ---------------------------------------------------------------- formatting

  /** Each index in decimal followed by the hardened marker 'h'. */
  function HardenedParts(indices: seq<nat>): (parts: seq<string>)
    ensures |parts| == |indices|
  {
    if indices == [] then [] else [NatToDecimal(indices[0]) + "h"] + HardenedParts(indices[1..])
  }

  /** The text "i1h/i2h/.../inh" of a list of hardened indices. */
  function FormatHardened(indices: seq<nat>): string
    requires |indices| >= 1
  {
    Join(HardenedParts(indices))
  }

  lemma HardenedPartsCons(i: nat, rest: seq<nat>)
    ensures HardenedParts([i] + rest) == [NatToDecimal(i) + "h"] + HardenedParts(rest)
  {
    assert ([i] + rest)[1..] == rest;
  }

  lemma HardenedPartsOfThree(a: nat, b: nat, c: nat)
    ensures HardenedParts([a, b, c]) == [NatToDecimal(a) + "h", NatToDecimal(b) + "h", NatToDecimal(c) + "h"]
  {
    HardenedPartsOfTwo(b, c);
    HardenedPartsCons(a, [b, c]);
    assert [a] + [b, c] == [a, b, c];
  }

  lemma HardenedPartsOfTwo(a: nat, b: nat)
    ensures HardenedParts([a, b]) == [NatToDecimal(a) + "h", NatToDecimal(b) + "h"]
  {
    HardenedPartsCons(b, []);
    HardenedPartsCons(a, [b]);
    assert [b] + [] == [b] && [a] + [b] == [a, b];
  }

  lemma JoinCons(a: string, rest: seq<string>)
    requires |rest| >= 1
    ensures Join([a] + rest) == a + "/" + Join(rest)
  {
    assert ([a] + rest)[1..] == rest;
  }

  lemma JoinOfTwo(a: string, b: string)
    ensures Join([a, b]) == a + "/" + b
  {
    JoinCons(a, [b]);
    assert [a] + [b] == [a, b];
  }

  lemma JoinOfThree(a: string, b: string, c: string)
    ensures Join([a, b, c]) == a + "/" + b + "/" + c
  {
    JoinOfTwo(b, c);
    JoinCons(a, [b, c]);
    assert [a] + [b, c] == [a, b, c];
    assert a + "/" + (b + "/" + c) == a + "/" + b + "/" + c;
  }

  /** One hardened segment written in decimal parses to its index plus the offset. */
  lemma HardenedSegmentParses(n: nat)
    requires n < HARDENED_OFFSET
    ensures ParseSegment(NatToDecimal(n) + "h") == Ok(n + HARDENED_OFFSET)
  {
    var seg := NatToDecimal(n) + "h";
    assert seg[..|seg| - 1] == NatToDecimal(n);
  }

  /** A plain decimal segment parses to its own value, below the offset. */
  lemma PlainSegmentParses(n: nat)
    requires n < HARDENED_OFFSET
    ensures ParseSegment(NatToDecimal(n)) == Ok(n)
  {
  }

  /** Decimal text, with or without the hardened marker, contains no separator. */
  lemma DecimalHasNoSlash(n: nat)
    ensures '/' !in NatToDecimal(n)
    ensures '/' !in NatToDecimal(n) + "h"
  {
    var d := NatToDecimal(n);
    assert forall j :: 0 <= j < |d| ==> IsDigit(d[j]);
    assert (d + "h")[|d|] == 'h';
  }

  /** No formatted piece contains a separator. */
  lemma {:induction false} HardenedPartsNoSlash(indices: seq<nat>)
    ensures forall k :: 0 <= k < |indices| ==> '/' !in HardenedParts(indices)[k]
  {
    if indices != [] {
      HardenedPartsNoSlash(indices[1..]);
      var parts := HardenedParts(indices);
      DecimalHasNoSlash(indices[0]);
      assert '/' !in parts[0];
      assert forall k :: 1 <= k < |indices| ==> parts[k] == HardenedParts(indices[1..])[k - 1];
    }
  }

  /** Each formatted piece parses to its index plus the offset. */
  lemma {:induction false} HardenedPartsParse(indices: seq<nat>)
    requires forall k :: 0 <= k < |indices| ==> indices[k] < HARDENED_OFFSET
    ensures forall k :: 0 <= k < |indices| ==>
      ParseSegment(HardenedParts(indices)[k]) == Ok(indices[k] + HARDENED_OFFSET)
  {
    if indices != [] {
      var rest := indices[1..];
      HardenedPartsParse(rest);
      assert indices == [indices[0]] + rest;
      HardenedPartsCons(indices[0], rest);
      var parts := HardenedParts(indices);
      var tail := HardenedParts(rest);
      assert parts == [NatToDecimal(indices[0]) + "h"] + tail;
      HardenedSegmentParses(indices[0]);
      forall k | 0 <= k < |indices|
        ensures ParseSegment(parts[k]) == Ok(indices[k] + HARDENED_OFFSET)
      {
        if k > 0 {
          assert parts[k] == tail[k - 1] && indices[k] == rest[k - 1];
        }
      }
    }
  }

  /** Formatting hardened indices and parsing the text gives each index plus the offset, in order. */
  lemma ParseFormatHardened(indices: seq<nat>)
    requires |indices| >= 1
    requires forall k :: 0 <= k < |indices| ==> indices[k] < HARDENED_OFFSET
    ensures var r := ParsePath(FormatHardened(indices));
      r.Ok? && |r.value| == |indices| &&
      forall k :: 0 <= k < |indices| ==> r.value[k] == indices[k] + HARDENED_OFFSET
  {
    var parts := HardenedParts(indices);
    HardenedPartsNoSlash(indices);
    HardenedPartsParse(indices);
    SplitJoin(parts);
    ParseSegmentsPointwise(parts);
  }
}
